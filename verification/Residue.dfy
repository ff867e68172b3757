/** What is left of the fourteen keys after the passes, and when a second run
    of the passes changes nothing. */
module Residue {
  import opened Rewriting
  import opened Confluence
  import opened Replacements
  import opened ReplacementOrder

  // ------------------------------------------------- one rule on its own

  lemma {:induction false} ShorterUnlessAbsent(r: Rule, t: string)
    requires |r.val| < |r.key|
    ensures |Replace(r, t)| <= |t|
    ensures Contains(t, r.key) ==> |Replace(r, t)| < |t|
    ensures !Contains(t, r.key) ==> Replace(r, t) == t
    decreases |t|
  {
    if t == "" {
    } else if r.key <= t {
      ShorterUnlessAbsent(r, t[|r.key|..]);
    } else {
      ShorterUnlessAbsent(r, t[1..]);
    }
  }

  /** Reruns are idle exactly when no key is left. */
  lemma {:induction false} IdleRun(order: seq<Rule>, t: string)
    requires forall r | r in order :: |r.val| < |r.key|
    ensures |Run(order, t)| <= |t|
    ensures Run(order, t) == t <==> forall r | r in order :: !Contains(t, r.key)
    decreases |order|
  {
    if order != [] {
      var q := order[0];
      assert q in order;
      ShorterUnlessAbsent(q, t);
      IdleRun(order[1..], Replace(q, t));
      assert forall r :: r in order <==> r == q || r in order[1..];
    }
  }

  /** Neither side of the rule overlaps its key in a way that could leave one behind. */
  ghost predicate Clean(r: Rule) {
    && Proper(r)
    && (forall p | Fits(r.val, r.key, p) :: false)
    && (forall p | Fits(r.key, r.val, p) :: false)
  }

  lemma {:induction false} NothingLeft(r: Rule, t: string)
    requires Clean(r)
    ensures !Contains(Replace(r, t), r.key)
    decreases |t|
  {
    if t == "" {
    } else if r.key <= t {
      NothingLeft(r, t[|r.key|..]);
      ContainsAfter(r.val, Replace(r, t[|r.key|..]), r.key);
    } else {
      NothingLeft(r, t[1..]);
      KeyNotCreated(r, t);
      assert ([t[0]] + Replace(r, t[1..]))[1..] == Replace(r, t[1..]);
    }
  }

  lemma KeyNotCreated(r: Rule, t: string)
    requires Clean(r) && !(r.key <= t)
    ensures !(r.key <= Replace(r, t))
  {
    if r.val[0] == Last(r.key) { FitsLast(r.key, r.val); }
    if r.key[0..] <= Replace(r, t) { NotCreated(r, r.key, 0, t); }
  }

  /** Key and value begin and end in the same character, and overlap only there. */
  ghost predicate Looped(r: Rule) {
    && Proper(r)
    && r.key[0] == Last(r.key) == r.val[0] == Last(r.val)
    && (forall p | Fits(r.val, r.key, p) :: p == |r.val| - 1)
    && (forall p | Fits(r.key, r.val, p) :: p == |r.key| - 1)
    && (forall p | Fits(r.key, r.key, p) :: p == 0 || p == |r.key| - 1)
  }

  /** Two keys of a looped rule sharing one character. */
  function Chain(r: Rule): string
    requires r.key != ""
  {
    Front(r.key) + r.key
  }

  lemma {:induction false} LoopLeft(r: Rule, t: string)
    requires Looped(r)
    ensures Contains(Replace(r, t), r.key) <==> Contains(t, Chain(r))
    decreases |t|
  {
    if t == "" {
    } else if r.key <= t {
      var u := t[|r.key|..];
      LoopLeft(r, u);
      assert t == r.key + u;
      LoopInResult(r, u);
      LoopInText(r, u);
    } else {
      LoopLeft(r, t[1..]);
      if r.key[0..] <= Replace(r, t) { NotCreated(r, r.key, 0, t); }
      assert Chain(r) == r.key + r.key[1..];
      assert Chain(r) <= t ==> r.key <= t;
      assert ([t[0]] + Replace(r, t[1..]))[1..] == Replace(r, t[1..]);
    }
  }

  /** Where w can occur in k + u when it meets k only at its two ends. */
  lemma ContainsJoin(k: string, u: string, w: string)
    requires k != "" && forall p | Fits(k, w, p) :: p == 0 || p == |k| - 1
    ensures Contains(k + u, w) <==> w <= k + u || w <= [Last(k)] + u || Contains(u, w)
  {
    var t := k + u;
    assert t[|k| - 1..] == [Last(k)] + u && t[|k|..] == u;
    if w <= [Last(k)] + u { ContainsAt(t, w, |k| - 1); }
    if Contains(u, w) { ContainsSuffix(t, w, |k|); }
    if Contains(t, w) {
      var p := Occurrence(t, w);
      assert t[0..] == t;
      if p < |k| {
        FitsAt(k, u, w, p);
      } else {
        assert t[p..] == u[p - |k|..];
        ContainsAt(u, w, p - |k|);
      }
    }
  }

  lemma LoopInText(r: Rule, u: string)
    requires Looped(r)
    ensures Contains(r.key + u, Chain(r)) <==> r.key[1..] <= u || Contains(u, Chain(r))
  {
    var k, w := r.key, Chain(r);
    assert w == k + k[1..];
    forall p | Fits(k, w, p) ensures p == 0 || p == |k| - 1 {
      FitsPrefix(k, w, k, p);
    }
    ContainsJoin(k, u, w);
    PrefixCancel(k, k[1..], u);
    assert w <= [Last(k)] + u ==> k <= [Last(k)] + u ==> k[1..] <= u;
  }

  lemma PrefixCancel(k: string, a: string, b: string)
    ensures k + a <= k + b <==> a <= b
  {
    if k + a <= k + b {
      assert a == (k + a)[|k|..] && b == (k + b)[|k|..];
      assert (k + b)[..|k + a|] == k + a;
      assert b[..|a|] == (k + b)[|k|..|k| + |a|] == a;
    }
  }

  lemma FitsPrefix(u: string, w: string, v: string, p: nat)
    requires v <= w && |u| <= |v|
    ensures Fits(u, w, p) ==> Fits(u, v, p)
  {}

  lemma LoopInResult(r: Rule, u: string)
    requires Looped(r)
    ensures Contains(r.val + Replace(r, u), r.key) <==> r.key[1..] <= u || Contains(Replace(r, u), r.key)
  {
    var x := Replace(r, u);
    LoopTail(r, u);
    LoopValue(r.val, x, r.key);
  }

  lemma LoopValue(v: string, x: string, k: string)
    requires |v| >= 2 && |k| >= 2 && Last(v) == k[0]
    requires forall p | Fits(v, k, p) :: p == |v| - 1
    ensures Contains(v + x, k) <==> k[1..] <= x || Contains(x, k)
  {
    ContainsJoin(v, x, k);
    NotAtFront(v, x, k);
    assert k == [k[0]] + k[1..];
    PrefixCancel([k[0]], k[1..], x);
  }

  /** The rest of a key is left in place, its last character at least in kind. */
  lemma LoopTail(r: Rule, u: string)
    requires Looped(r)
    ensures r.key[1..] <= u <==> r.key[1..] <= Replace(r, u)
  {
    var c := r.key[1..];
    if c <= u {
      var v := u[|c| - 1..];
      assert u == Front(c) + v;
      forall p: nat | Fits(c, r.key, p) ensures p == |c| - 1 {
        assert r.key[p + 1..] == c[p..];
        assert Fits(r.key, r.key, p + 1);
      }
      SkipFront(r, c, v);
      assert Replace(r, v)[0] == Last(c);
      assert c == Front(c) + [Last(c)];
    }
    if c <= Replace(r, u) {
      NotCreated(r, r.key, 1, u);
    }
  }

  /** The rule deletes pre from the front of its key: what it writes can be
      the rest of another occurrence. */
  ghost predicate Peeling(r: Rule, pre: string) {
    && Proper(r) && pre != "" && r.key == pre + r.val
    && (forall p | Fits(r.key, r.val, p) :: p == |pre|)
    && (forall p | Fits(r.val, r.val, p) :: p == 0)
    && (forall p | Fits(r.val, r.key, p) :: false)
    && (forall p | Fits(r.key, pre + r.key, p) :: false)
    && (forall p: nat | Fits(pre + r.key, r.key, p) :: p >= |pre|)
  }

  lemma {:induction false} PeelLeft(r: Rule, pre: string, t: string)
    requires Peeling(r, pre)
    ensures Contains(Replace(r, t), r.key) <==> Contains(t, pre + r.key)
    decreases |t|
  {
    if t == "" {
    } else if r.key <= t {
      var u := t[|r.key|..];
      assert t == r.key + u;
      PeelLeft(r, pre, u);
      ContainsAfter(r.key, u, pre + r.key);
      ContainsAfter(r.val, Replace(r, u), r.key);
    } else {
      PeelLeft(r, pre, t[1..]);
      if pre + r.key <= t { PeelCreates(r, pre, t); }
      if r.key[0..] <= Replace(r, t) { PeelCreated(r, pre, 0, t); }
      assert ([t[0]] + Replace(r, t[1..]))[1..] == Replace(r, t[1..]);
    }
  }

  lemma PeelCreates(r: Rule, pre: string, t: string)
    requires Proper(r) && r.key == pre + r.val
    requires forall p: nat | Fits(pre + r.key, r.key, p) :: p >= |pre|
    requires pre + r.key <= t
    ensures r.key <= Replace(r, t)
  {
    var n := |pre|;
    assert t[..n] == pre && r.key <= t[n..];
    NoKeyBefore(r, pre + r.key, n, t);
    SkipTo(r, n, t);
    assert r.val <= Replace(r, t[n..]);
    PrefixCancel(pre, r.val, Replace(r, t[n..]));
  }

  lemma NoKeyBefore(r: Rule, w: string, n: nat, t: string)
    requires w <= t && n <= |w| && forall p: nat | Fits(w, r.key, p) :: p >= n
    ensures forall p | 0 <= p < n :: !(r.key <= t[p..])
  {
    var z := t[|w|..];
    assert t == w + z;
    forall p | 0 <= p < n ensures !(r.key <= t[p..]) {
      if r.key <= (w + z)[p..] { FitsAt(w, z, r.key, p); }
    }
  }

  lemma {:induction false} PeelCreated(r: Rule, pre: string, i: nat, t: string)
    requires Proper(r) && pre != "" && r.key == pre + r.val
    requires (forall p | Fits(r.key, r.val, p) :: p == |pre|) && (forall p | Fits(r.val, r.val, p) :: p == 0)
    requires i <= |pre| && r.key[i..] <= Replace(r, t)
    ensures pre[i..] + r.key <= t || r.key[i..] <= t
    decreases |t|
  {
    if t == "" {
    } else if r.key <= t {
      PeelAtKey(r, pre, i, t);
    } else {
      PeelStep(r, i, t);
      if i < |pre| {
        PeelCreated(r, pre, i + 1, t[1..]);
        PeelBack(r.key, pre, i, t);
      } else {
        PeelValue(r, pre, t[1..]);
        Prepend(t[0], r.key[i..], t);
      }
    }
  }

  lemma PeelStep(r: Rule, i: nat, t: string)
    requires Proper(r) && i < |r.key| && t != "" && !(r.key <= t) && r.key[i..] <= Replace(r, t)
    ensures r.key[i] == t[0] && r.key[i..][0] == t[0] && r.key[i..][1..] == r.key[i + 1..]
    ensures r.key[i + 1..] <= Replace(r, t[1..])
  {
    assert Replace(r, t)[1..] == Replace(r, t[1..]);
  }

  lemma PeelBack(key: string, pre: string, i: nat, t: string)
    requires i < |pre| && pre <= key && t != "" && key[i] == t[0]
    requires pre[i + 1..] + key <= t[1..] || key[i + 1..] <= t[1..]
    ensures pre[i..] + key <= t || key[i..] <= t
  {
    if key[i + 1..] <= t[1..] {
      assert key[i..][1..] == key[i + 1..];
      Prepend(t[0], key[i..], t);
    } else {
      assert (pre[i..] + key)[1..] == pre[i + 1..] + key;
      Prepend(t[0], pre[i..] + key, t);
    }
  }

  lemma PeelAtKey(r: Rule, pre: string, i: nat, t: string)
    requires Proper(r) && r.key == pre + r.val && forall p | Fits(r.key, r.val, p) :: p == |pre|
    requires i <= |pre| && r.key <= t && r.key[i..] <= Replace(r, t)
    ensures pre[i..] + r.key <= t
  {
    var x := Replace(r, t);
    assert r.val == x[..|r.val|] && r.key[i..] == x[..|r.key| - i];
    assert Fits(r.key, r.val, i);
    assert pre[i..] + r.key == r.key;
  }

  lemma PeelValue(r: Rule, pre: string, t: string)
    requires Proper(r) && r.key == pre + r.val && forall p | Fits(r.val, r.val, p) :: p == 0
    requires r.key[|pre| + 1..] <= Replace(r, t)
    ensures r.key[|pre| + 1..] <= t
  {
    assert r.key[|pre| + 1..] == r.val[1..];
    if r.val[0] == Last(r.val) { FitsLast(r.val, r.val); }
    NotCreated(r, r.val, 1, t);
  }

  // ------------------------------------------------------------ the table

  /** The rules that can leave their key behind, and the text in which they do. */
  predicate Leaves(n: Name) {
    n == GroupSuffix || n == PackagePath || n == Resolver
  }

  function Leaver(n: Name, r: Rule): string
    requires r.key != ""
  {
    if n == GroupSuffix then "m." + r.key else Chain(r)
  }

  lemma CleanOf(n: Name, r: Rule)
    requires Facts(n, r) && n != GroupSuffix && n != PackagePath && n != Resolver
    ensures Clean(r)
  {
    OpensOf(n, r);
    ApartSelf(n, r);
    Mirror(r.key, r.val);
    forall p: nat ensures !Fits(r.val, r.key, p) && !Fits(r.key, r.val, p) {
      if p > 0 && Fits(r.val, r.key, p) { MeetsAtEnd(r.val, FirstOf(n), ValEndOf(n), true, r.key, p); }
      if p > 0 && Fits(r.key, r.val, p) { MeetsAtEnd(r.key, FirstOf(n), KeyEndOf(n), true, r.val, p); }
    }
  }

  lemma LoopedOf(n: Name, r: Rule)
    requires Facts(n, r) && (n == PackagePath || n == Resolver)
    ensures Looped(r)
  {
    OpensOf(n, r);
    ApartSelf(n, r);
    Mirror(r.key, r.val);
    forall p | Fits(r.val, r.key, p) ensures p == |r.val| - 1 {
      MeetsAtEnd(r.val, FirstOf(n), ValEndOf(n), true, r.key, p);
    }
    forall p | Fits(r.key, r.val, p) ensures p == |r.key| - 1 {
      MeetsAtEnd(r.key, FirstOf(n), KeyEndOf(n), true, r.val, p);
    }
    forall p | Fits(r.key, r.key, p) ensures p == 0 || p == |r.key| - 1 {
      if p > 0 { MeetsAtEnd(r.key, FirstOf(n), KeyEndOf(n), true, r.key, p); }
    }
  }

  lemma PeelingOf(r: Rule)
    requires Facts(GroupSuffix, r) && Silent(r.val, 1, |r.val|, true)
    ensures Peeling(r, "m.")
  {
    var pre, w := "m.", "m." + r.key;
    OpensOf(GroupSuffix, r);
    ApartSelf(GroupSuffix, r);
    assert r.key[0] == 'm' && r.key[1] == '.' && r.key[2] == 'c';
    forall p | Fits(r.val, r.val, p) ensures p == 0 {}
    FitsDiffer(r.key, r.val, 0, 0);
    FitsDiffer(r.key, r.val, 1, 0);
    forall p | Fits(r.key, r.val, p) ensures p == 2 {
      if p >= 2 { FitsBack(pre, r.val, r.val, p); }
    }
    forall p: nat ensures !Fits(r.val, r.key, p) && !Fits(r.key, w, p) {
      if p > 0 && Fits(r.val, r.key, p) { MeetsAtEnd(r.val, 'c', 'o', false, r.key, p); }
      if p > 0 && Fits(r.key, w, p) { MeetsAtEnd(r.key, 'm', 'o', false, w, p); }
      FitsDiffer(r.key, w, 0, 2);
    }
    forall p: nat | Fits(w, r.key, p) ensures p >= |pre| {
      FitsDiffer(w, r.key, 0, 2);
      FitsDiffer(w, r.key, 1, 0);
    }
  }

  lemma GroupSuffixValue()
    ensures Silent(Of(GroupSuffix).val, 1, |Of(GroupSuffix).val|, true)
  {
    GroupSuffixWords();
    StillIsSilent("crossplane.io", 1, 13, true);
  }

  /** A pass leaves its own key behind exactly in those texts. */
  lemma LeftByPass(n: Name, r: Rule, t: string)
    requires Facts(n, r) && (n == GroupSuffix ==> Silent(r.val, 1, |r.val|, true))
    ensures Contains(Replace(r, t), r.key) <==> Leaves(n) && Contains(t, Leaver(n, r))
  {
    if n == GroupSuffix {
      PeelingOf(r);
      PeelLeft(r, "m.", t);
    } else if n == PackagePath || n == Resolver {
      LoopedOf(n, r);
      LoopLeft(r, t);
    } else {
      CleanOf(n, r);
      NothingLeft(r, t);
    }
  }

  // ------------------------------------------- the other thirteen passes

  /** q may also end where w begins, as long as it keeps that character. */
  ghost predicate Beside(q: Rule, w: string) {
    && Passive(q, w) && |w| >= 3
    && (forall p | Fits(q.key, w, p) :: 0 < p == |q.key| - 1)
    && (forall p | Fits(q.val, w, p) :: 0 < p == |q.val| - 1)
    && (Last(q.key) == w[0] ==> Last(q.val) == w[0])
  }

  lemma PassiveTail(q: Rule, w: string)
    requires Passive(q, w) && |w| >= 3
    ensures Passive(q, w[1..])
  {
    var c := w[1..];
    forall p: nat | p < |c| ensures c[p..] == w[p + 1..] {}
    forall p: nat | Fits(c, q.key, p) ensures p == |c| - 1 && q.key[0] == q.val[0] {
      assert Fits(w, q.key, p + 1);
    }
    forall p: nat | Fits(c, q.val, p) ensures p == |c| - 1 && q.key[0] == q.val[0] {
      assert Fits(w, q.val, p + 1);
    }
  }

  lemma TailKept(q: Rule, w: string, u: string)
    requires Passive(q, w) && |w| >= 3
    ensures w[1..] <= u <==> w[1..] <= Replace(q, u)
  {
    PassiveTail(q, w);
    FrontKept(q, w[1..], u);
  }

  /** Where w can occur in k + u when it meets k only at its last character. */
  lemma JoinAtLast(k: string, u: string, w: string)
    requires k != "" && w != "" && forall p | Fits(k, w, p) :: 0 < p == |k| - 1
    ensures Contains(k + u, w) <==> (Last(k) == w[0] && w[1..] <= u) || Contains(u, w)
  {
    ContainsJoin(k, u, w);
    NotAtFront(k, u, w);
    assert w == [w[0]] + w[1..];
    PrefixCancel([w[0]], w[1..], u);
  }

  lemma BesideAtKey(q: Rule, w: string, u: string)
    requires Beside(q, w)
    requires Last(q.val) == w[0] != Last(q.key) ==> !(w[1..] <= u)
    requires Contains(Replace(q, u), w) <==> Contains(u, w)
    ensures Contains(q.val + Replace(q, u), w) <==> Contains(q.key + u, w)
  {
    JoinAtLast(q.key, u, w);
    JoinAtLast(q.val, Replace(q, u), w);
    TailKept(q, w, u);
  }

  lemma NotAtFront(k: string, u: string, w: string)
    requires k != "" && forall p | Fits(k, w, p) :: p > 0
    ensures !(w <= k + u)
  {
    assert (k + u)[0..] == k + u;
    if w <= k + u { FitsAt(k, u, w, 0); }
  }

  lemma {:induction false} BesideKeeps(q: Rule, w: string, t: string)
    requires Beside(q, w)
    requires Last(q.val) == w[0] != Last(q.key) ==> !Contains(t, q.key + w[1..])
    ensures Contains(Replace(q, t), w) <==> Contains(t, w)
    decreases |t|
  {
    var g := q.key + w[1..];
    if t == "" {
    } else if q.key <= t {
      var u := t[|q.key|..];
      assert t == q.key + u;
      if Contains(u, g) { ContainsSuffix(t, g, |q.key|); }
      PrefixCancel(q.key, w[1..], u);
      BesideKeeps(q, w, u);
      BesideAtKey(q, w, u);
    } else {
      FrontKept(q, w, t);
      BesideKeeps(q, w, t[1..]);
      var x := Replace(q, t[1..]);
      assert ([t[0]] + x)[1..] == x;
    }
  }

  lemma BesideChain(n: Name, r: Rule, k: Name, q: Rule)
    requires Facts(n, r) && Facts(k, q) && n != k && (n == PackagePath || n == Resolver)
    ensures Beside(q, Chain(r))
  {
    var w, c := Chain(r), r.key[1..];
    assert w == r.key + c;
    OpensOf(n, r);
    OpensOf(k, q);
    Apart(n, r, k, q);
    forall p | Fits(w, q.key, p) ensures p == |w| - 1 && q.key[0] == q.val[0] {
      InChain(n, r, q.key, p);
    }
    forall p | Fits(w, q.val, p) ensures p == |w| - 1 && q.key[0] == q.val[0] {
      InChain(n, r, q.val, p);
    }
    BesideWord(n, r, k, q, w);
  }

  lemma BesideWord(n: Name, r: Rule, k: Name, q: Rule, w: string)
    requires Facts(n, r) && Facts(k, q) && n != k && Leaves(n)
    requires Opens(w, false) && w[0] == FirstOf(n)
    requires !Fits(w, q.key, 0) && !Fits(w, q.val, 0)
    ensures forall p | Fits(q.key, w, p) :: 0 < p == |q.key| - 1
    ensures forall p | Fits(q.val, w, p) :: 0 < p == |q.val| - 1
    ensures Last(q.key) == w[0] ==> Last(q.val) == w[0]
  {
    Mirror(q.key, w);
    Mirror(q.val, w);
    forall p | Fits(q.key, w, p) ensures 0 < p == |q.key| - 1 {
      if p > 0 { MeetsAtEnd(q.key, FirstOf(k), KeyEndOf(k), k != GroupSuffix, w, p); }
    }
    forall p | Fits(q.val, w, p) ensures 0 < p == |q.val| - 1 {
      if p > 0 { MeetsAtEnd(q.val, ValFirstOf(k), ValEndOf(k), k != GroupSuffix, w, p); }
    }
  }

  lemma InChain(n: Name, r: Rule, x: string, p: nat)
    requires Facts(n, r) && (n == PackagePath || n == Resolver)
    requires Opens(x, true) && !Fits(r.key, x, 0) && Fits(Chain(r), x, p)
    ensures p == |Chain(r)| - 1 && x[0] == FirstOf(n)
  {
    var k, w, c := r.key, Chain(r), r.key[1..];
    assert w == k + c;
    assert w[|k| - 1..] == k[0..];
    if p < |k| {
      FitsFront(k, c, x, p);
      MeetsAtEnd(k, FirstOf(n), KeyEndOf(n), true, x, p);
    } else {
      FitsBack(k, c, x, p);
      assert c[p - |k|..] == k[p - |k| + 1..];
      MeetsAtEnd(k, FirstOf(n), KeyEndOf(n), true, x, p - |k| + 1);
    }
  }

  lemma BesidePeel(r: Rule, k: Name, q: Rule)
    requires Facts(GroupSuffix, r) && Facts(k, q) && k != GroupSuffix
    ensures Beside(q, "m." + r.key)
  {
    var w := "m." + r.key;
    OpensOf(k, q);
    Apart(GroupSuffix, r, k, q);
    forall p: nat ensures !Fits(w, q.key, p) && !Fits(w, q.val, p) {
      NotInPeel(r, q.key, p);
      NotInPeel(r, q.val, p);
    }
    BesideWord(GroupSuffix, r, k, q, w);
  }

  lemma NotInPeel(r: Rule, x: string, p: nat)
    requires Facts(GroupSuffix, r) && Opens(x, false) && x[0] != 'm' && !Fits(r.key, x, 0)
    ensures !Fits("m." + r.key, x, p)
  {
    var w := "m." + r.key;
    if p < 2 {
      FitsDiffer(w, x, p, 0);
    } else {
      FitsBack("m.", r.key, x, p);
      if p > 2 && Fits(r.key, x, p - 2) { MeetsAtEnd(r.key, 'm', 'o', false, x, p - 2); }
    }
  }

  /** A glued occurrence of the chain would hold a critical word. */
  lemma GluedChain(q: Rule, r: Rule, t: string)
    requires Proper(q) && Proper(r) && r.key[0] == Last(r.key) && Contains(t, q.key + Chain(r)[1..])
    ensures Contains(t, EndWord(q, r))
  {
    var g := q.key + Chain(r)[1..];
    var p := Occurrence(t, g);
    assert Chain(r)[1..] == r.key[1..] + r.key[1..];
    assert g == EndWord(q, r) + r.key[1..];
    ContainsAt(t, EndWord(q, r), p);
  }

  lemma LeaverKept(n: Name, r: Rule, k: Name, q: Rule, t: string)
    requires Facts(n, r) && Facts(k, q) && n != k && Leaves(n)
    requires n == Resolver && k == ScopeMarker ==> !Contains(t, EndWord(q, r))
    ensures Contains(Replace(q, t), Leaver(n, r)) <==> Contains(t, Leaver(n, r))
  {
    if n == GroupSuffix {
      BesidePeel(r, k, q);
      BesideKeeps(q, "m." + r.key, t);
    } else {
      BesideChain(n, r, k, q);
      if k == ScopeMarker && n == Resolver && Contains(t, q.key + Chain(r)[1..]) { GluedChain(q, r, t); }
      BesideKeeps(q, Chain(r), t);
    }
  }

  lemma LeaverStays(n: Name, order: seq<Rule>, t: string)
    requires Leaves(n) && forall q | q in order :: q in All() && q.key != "" && q != Of(n)
    requires n == Resolver ==> Of(ScopeMarker) !in order
    ensures Of(n).key != "" && (Contains(Run(order, t), Leaver(n, Of(n))) <==> Contains(t, Leaver(n, Of(n))))
    decreases |order|
  {
    FactsOf(n);
    if order != [] {
      var q := order[0];
      assert q in order;
      var k := NameOf(q);
      LeaverKept(n, Of(n), k, q, t);
      LeaverStays(n, order[1..], Replace(q, t));
    }
  }

  // ------------------------------------------------------- whole orders

  /** An order that ends with a given rule and, for Resolver, begins with ScopeMarker. */
  lemma OrderEndingIn(n: Name) returns (others: seq<Rule>)
    requires System(All())
    ensures Arranges(others + [Of(n)], All())
    ensures forall q | q in others :: q in All() && q.key != "" && q != Of(n)
    ensures n == Resolver ==> others != [] && others[0] == Of(ScopeMarker) && Of(ScopeMarker) !in others[1..]
  {
    var last, first := Of(n), Of(ScopeMarker);
    assert last in All() && first in All();
    if n == Resolver {
      Different(ScopeMarker, n);
      var rest := Listing(All() - {first, last});
      others := [first] + rest;
      assert others + [last] == [first] + (rest + [last]);
      assert forall i | 0 <= i < |rest| :: rest[i] in rest;
      assert others[1..] == rest;
    } else {
      others := Listing(All() - {last});
      assert forall i | 0 <= i < |others| :: others[i] in others;
    }
  }

  lemma Different(m: Name, n: Name)
    requires m != n
    ensures Of(m) != Of(n)
  {
    FactsOf(m);
    FactsOf(n);
    ApartKeys(m, Of(m), n, Of(n));
    assert Of(m).key[0..] == Of(m).key;
  }

  /** After the passes, in whatever order, a key is left exactly when the text
      held the word in which its rule leaves it behind. */
  lemma KeyLeftIff(order: seq<Rule>, n: Name, t: string)
    requires Arranges(order, All()) && !Critical(t)
    ensures Of(n).key != ""
    ensures Contains(Run(order, t), Of(n).key) <==> Leaves(n) && Contains(t, Leaver(n, Of(n)))
  {
    var others := RunEndingIn(order, n, t);
    if Leaves(n) { LeaverBefore(n, others, t); }
    LeftByLastPass(n, Run(others, t));
  }

  lemma LeftByLastPass(n: Name, z: string)
    ensures Of(n).key != "" && (Contains(Replace(Of(n), z), Of(n).key) <==> Leaves(n) && Contains(z, Leaver(n, Of(n))))
  {
    FactsOf(n);
    if n == GroupSuffix { GroupSuffixValue(); }
    LeftByPass(n, Of(n), z);
  }

  /** Any order gives what an order that ends with the given rule gives. */
  lemma RunEndingIn(order: seq<Rule>, n: Name, t: string) returns (others: seq<Rule>)
    requires Arranges(order, All()) && !Critical(t)
    ensures forall q | q in others :: q in All() && q.key != "" && q != Of(n)
    ensures n == Resolver ==> others != [] && others[0] == Of(ScopeMarker) && Of(ScopeMarker) !in others[1..]
    ensures Of(n).key != "" && Run(order, t) == Replace(Of(n), Run(others, t))
  {
    AllSystem();
    others := OrderEndingIn(n);
    var last := Of(n);
    ReplacementOrderIrrelevantIff(t);
    assert Run(order, t) == Run(others + [last], t);
    RunAppend(others, [last], t);
    assert [last][1..] == [];
  }

  lemma LeaverBefore(n: Name, others: seq<Rule>, t: string)
    requires Leaves(n) && !Critical(t)
    requires forall q | q in others :: q in All() && q.key != "" && q != Of(n)
    requires n == Resolver ==> others != [] && others[0] == Of(ScopeMarker) && Of(ScopeMarker) !in others[1..]
    ensures Of(n).key != "" && (Contains(Run(others, t), Leaver(n, Of(n))) <==> Contains(t, Leaver(n, Of(n))))
  {
    FactsOf(n);
    if n == Resolver {
      FactsOf(ScopeMarker);
      assert EndWord(Of(ScopeMarker), Of(Resolver)) in CriticalWords();
      LeaverKept(n, Of(n), ScopeMarker, others[0], t);
      assert forall q | q in others[1..] :: q in others;
      LeaverStays(n, others[1..], Replace(others[0], t));
    } else {
      LeaverStays(n, others, t);
    }
  }

  /** Running all the passes again changes nothing exactly when no key was left. */
  lemma RerunIdleIff(o1: seq<Rule>, o2: seq<Rule>, t: string)
    requires Arranges(o1, All()) && Arranges(o2, All()) && !Critical(t)
    ensures forall n | Leaves(n) :: Of(n).key != ""
    ensures Run(o2, Run(o1, t)) == Run(o1, t) <==> forall n | Leaves(n) :: !Contains(t, Leaver(n, Of(n)))
  {
    var y := Run(o1, t);
    forall r | r in o2 ensures |r.val| < |r.key| {
      var n := NameOf(r);
      Shortens(n);
    }
    IdleRun(o2, y);
    forall n: Name ensures Of(n) in o2 && Of(n).key != "" {
      assert Of(n) in All();
    }
    forall n: Name ensures Contains(y, Of(n).key) <==> Leaves(n) && Contains(t, Leaver(n, Of(n))) {
      KeyLeftIff(o1, n, t);
    }
    forall r | r in o2 ensures exists n :: r == Of(n) {
      var n := NameOf(r);
    }
  }
}
