/** The order in which the generator applies its fourteen replacements. */
module ReplacementOrder {
  import opened Rewriting
  import opened Confluence
  import opened Replacements

  // -------------------------------------------- which rules can be glued

  lemma EndGlueOnly(m: Name, r: Rule, n: Name, s: Rule)
    requires m != n && Facts(m, r) && Facts(n, s)
    ensures EndGlue(r, s) <==> m == ScopeMarker && FirstOf(n) == 'r'
  {}

  lemma StartGlueOnly(m: Name, r: Rule, n: Name, s: Rule)
    requires m != n && Facts(m, r) && Facts(n, s)
    ensures StartGlue(r, s) <==> m == GroupSuffix && n == ManagedSpec
  {}

  // ------------------------------------------------- where a word meets them

  /** What begins in an EndWord begins in the key of s, and at its end. */
  lemma InEndWord(m: Name, r: Rule, n: Name, s: Rule, x: string, p: nat)
    requires Facts(m, r) && Facts(n, s) && m == ScopeMarker && FirstOf(n) == 'r'
    requires Opens(x, true) && x[0] != 'd' && !Fits(r.key, x, 0)
    requires Fits(EndWord(r, s), x, p)
    ensures p == |EndWord(r, s)| - 1 && x[0] == KeyEndOf(n)
  {
    var c := s.key[1..];
    if p < |r.key| {
      FitsFront(r.key, c, x, p);
      MeetsAtEnd(r.key, 'k', 'd', true, x, p);
    } else {
      FitsBack(r.key, c, x, p);
      assert c[p - |r.key|..] == s.key[p - |r.key| + 1..];
      MeetsAtEnd(s.key, 'r', KeyEndOf(n), true, x, p - |r.key| + 1);
    }
  }

  /** What begins in the StartWord begins with the key of GroupSuffix, or at the front. */
  lemma InStartWord(r: Rule, s: Rule, x: string, p: nat)
    requires Facts(GroupSuffix, r) && Facts(ManagedSpec, s)
    requires Opens(x, false) && x[0] != 'o'
    requires Fits(StartWord(r, s), x, p) && p > 0
    ensures p == |s.key| - 1 && Fits(r.key, x, 0)
  {
    var u := Front(s.key);
    if p < |u| {
      FitsFront(u, r.key, x, p);
    } else {
      FitsBack(u, r.key, x, p);
      if p > |u| {
        MeetsAtEnd(r.key, 'm', 'o', false, x, p - |u|);
      }
    }
  }

  lemma OpensOf(n: Name, r: Rule)
    requires Facts(n, r)
    ensures Opens(r.key, true) && Opens(r.val, true)
    ensures r.key[0] == FirstOf(n) && r.val[0] == ValFirstOf(n)
    ensures n != GroupSuffix ==> Opens(r.val, false)
  {}

  lemma AloofFromEndWord(m: Name, r: Rule, n: Name, s: Rule, k: Name, q: Rule)
    requires Facts(m, r) && Facts(n, s) && Facts(k, q) && k != m && k != n
    requires m == ScopeMarker && FirstOf(n) == 'r'
    ensures Aloof(q, EndWord(r, s))
  {
    var w := EndWord(r, s);
    OpensOf(k, q);
    Apart(m, r, k, q);
    forall p | Fits(w, q.key, p) ensures p == |w| - 1 && q.key[0] == q.val[0] {
      InEndWord(m, r, n, s, q.key, p);
    }
    forall p | Fits(w, q.val, p) ensures p == |w| - 1 && q.key[0] == q.val[0] {
      InEndWord(m, r, n, s, q.val, p);
    }
    forall p: nat ensures !Fits(q.key, w, p) && !Fits(q.val, w, p) {
      NotInside(k, q, w, p);
      FitsFront(r.key, s.key[1..], q.key, 0);
      FitsFront(r.key, s.key[1..], q.val, 0);
    }
  }

  /** A longer word opening like a key does not begin inside another rule's words. */
  lemma NotInside(k: Name, q: Rule, w: string, p: nat)
    requires Facts(k, q) && |w| >= 8 && Opens(w, false) && (w[0] == 'k' || w[0] == 'x')
    ensures Fits(q.key, w, p) ==> p == 0 && Fits(w, q.key, 0)
    ensures Fits(q.val, w, p) ==> p == 0 && Fits(w, q.val, 0)
  {
    Mirror(q.key, w);
    Mirror(q.val, w);
    if Fits(q.key, w, p) && p > 0 {
      MeetsAtEnd(q.key, FirstOf(k), KeyEndOf(k), k != GroupSuffix, w, p);
    }
    if Fits(q.val, w, p) && p > 0 {
      MeetsAtEnd(q.val, ValFirstOf(k), ValEndOf(k), k != GroupSuffix, w, p);
    }
  }

  /** At the front of the StartWord only ManagedSpec begins: its fourth character is 2. */
  lemma FrontOfStartWord(r: Rule, s: Rule, k: Name, q: Rule)
    requires Facts(GroupSuffix, r) && Facts(ManagedSpec, s) && Facts(k, q) && k != ManagedSpec
    ensures !Fits(StartWord(r, s), q.key, 0) && !Fits(StartWord(r, s), q.val, 0)
  {
    var w := StartWord(r, s);
    assert w[0] == 'x' && w[3] == '2';
    FitsDiffer(w, q.key, 0, if q.key[0] == 'x' then 3 else 0);
    FitsDiffer(w, q.val, 0, if q.val[0] == 'x' then 3 else 0);
  }

  lemma AloofFromStartWord(r: Rule, s: Rule, k: Name, q: Rule)
    requires Facts(GroupSuffix, r) && Facts(ManagedSpec, s) && Facts(k, q)
    requires k != GroupSuffix && k != ManagedSpec
    ensures Aloof(q, StartWord(r, s))
  {
    var w := StartWord(r, s);
    OpensOf(k, q);
    Apart(GroupSuffix, r, k, q);
    FrontOfStartWord(r, s, k, q);
    forall p: nat ensures !Fits(w, q.key, p) && !Fits(w, q.val, p) {
      if p > 0 && Fits(w, q.key, p) { InStartWord(r, s, q.key, p); }
      if p > 0 && Fits(w, q.val, p) { InStartWord(r, s, q.val, p); }
    }
    forall p: nat ensures !Fits(q.key, w, p) && !Fits(q.val, w, p) {
      NotInside(k, q, w, p);
    }
  }

  // ------------------------------------------------------------ sharp pairs

  lemma SharpEnd(r: Rule, n: Name, s: Rule)
    requires Facts(ScopeMarker, r) && Facts(n, s) && FirstOf(n) == 'r'
    ensures Sharp(r, s)
  {
    OrthogonalNames(ScopeMarker, r, n, s);
    OrthogonalNames(n, s, ScopeMarker, r);
    var w := EndWord(r, s);
    forall p | Fits(r.key, w, p) ensures p == 0 {
      if p > 0 { MeetsAtEnd(r.key, 'k', 'd', true, w, p); }
    }
    forall p: nat ensures !Fits(s.key, w, p) {
      NotInside(n, s, w, p);
      Apart(ScopeMarker, r, n, s);
      FitsFront(r.key, s.key[1..], s.key, 0);
    }
    forall p | Fits(s.key, s.key, p) ensures p == 0 || p == |s.key| - 1 {
      if p > 0 { MeetsAtEnd(s.key, 'r', KeyEndOf(n), true, s.key, p); }
    }
    var m := if n == Resolver then 16 else 10;
    assert m < |s.key| - 1 && Diverge(s.val, s.key, m);
  }

  lemma SharpStart(r: Rule, s: Rule)
    requires Facts(GroupSuffix, r) && Facts(ManagedSpec, s)
    ensures Sharp(r, s)
  {
    OrthogonalNames(GroupSuffix, r, ManagedSpec, s);
    OrthogonalNames(ManagedSpec, s, GroupSuffix, r);
    Apart(GroupSuffix, r, ManagedSpec, s);
    var w := StartWord(r, s);
    FrontOfStartWord(r, s, GroupSuffix, r);
    forall p: nat ensures !Fits(r.key, w, p) && !Fits(s.key, w, p) && !Fits(w, s.key, p) {
      NotInside(GroupSuffix, r, w, p);
      NotInside(ManagedSpec, s, w, p);
      assert s.key[|s.key| - 1] == 'c' && w[|s.key| - 1] == 'm';
      FitsDiffer(w, s.key, 0, |s.key| - 1);
      Mirror(s.key, w);
      if p > 0 && Fits(w, s.key, p) { InStartWord(r, s, s.key, p); }
    }
    forall p | Fits(w, r.key, p) ensures p == |s.key| - 1 {
      if p > 0 { InStartWord(r, s, r.key, p); }
    }
    assert Diverge(s.val, s.key, 3);
  }

  // -------------------------------------------------------- the whole table

  lemma NameOf(r: Rule) returns (n: Name)
    requires r in All()
    ensures r == Of(n) && Facts(n, r)
  {
    n :| r == Of(n);
    FactsOf(n);
  }

  lemma AllUninvolved(m: Name, r: Rule, n: Name, s: Rule, k: Name, q: Rule)
    requires Facts(m, r) && Facts(n, s) && Facts(k, q) && m != n && k != m && k != n
    ensures Uninvolved(q, r, s)
  {
    EndGlueOnly(m, r, n, s);
    StartGlueOnly(m, r, n, s);
    if EndGlue(r, s) { AloofFromEndWord(m, r, n, s, k, q); }
    if StartGlue(r, s) { AloofFromStartWord(r, s, k, q); }
  }

  lemma AllSystem()
    ensures System(All())
  {
    forall r | r in All() ensures Proper(r) {
      var m := NameOf(r);
    }
    forall r, s | r in All() && s in All() && r != s ensures Orthogonal(r, s) {
      var m := NameOf(r);
      var n := NameOf(s);
      OrthogonalNames(m, r, n, s);
    }
    forall r, s, q | r in All() && s in All() && q in All() && r != s && q != r && q != s
      ensures Uninvolved(q, r, s)
    {
      var m := NameOf(r);
      var n := NameOf(s);
      var k := NameOf(q);
      AllUninvolved(m, r, n, s, k, q);
    }
  }

  lemma AllSharp(r: Rule, s: Rule)
    requires r in All() && s in All() && r != s
    ensures Proper(r) && Proper(s) && (EndGlue(r, s) || StartGlue(r, s) ==> Sharp(r, s))
  {
    var m := NameOf(r);
    var n := NameOf(s);
    EndGlueOnly(m, r, n, s);
    StartGlueOnly(m, r, n, s);
    if EndGlue(r, s) { SharpEnd(r, n, s); }
    if StartGlue(r, s) { SharpStart(r, s); }
  }

  /** The four texts in which one replacement makes or unmakes the key of another. */
  function CriticalWords(): set<string> {
    {
      EndWord(Of(ScopeMarker), Of(Resolver)),
      EndWord(Of(ScopeMarker), Of(ResolutionRequest)),
      EndWord(Of(ScopeMarker), Of(ResolutionResponse)),
      StartWord(Of(GroupSuffix), Of(ManagedSpec))
    }
  }

  predicate Critical(t: string) {
    exists w :: w in CriticalWords() && Contains(t, w)
  }

  lemma ClashIsCritical(r: Rule, s: Rule, t: string)
    requires r in All() && s in All() && r != s && Proper(r) && Proper(s) && Clash(r, s, t)
    ensures Critical(t)
  {
    var m := NameOf(r);
    var n := NameOf(s);
    EndGlueOnly(m, r, n, s);
    StartGlueOnly(m, r, n, s);
    var w := if EndGlue(r, s) && Contains(t, EndWord(r, s)) then EndWord(r, s) else StartWord(r, s);
    assert w in CriticalWords();
  }

  lemma CriticalIsClash(t: string)
    requires System(All()) && Critical(t)
    ensures !ClashFree(All(), t)
  {
    var w :| w in CriticalWords() && Contains(t, w);
    if w == StartWord(Of(GroupSuffix), Of(ManagedSpec)) {
      StartClash(Of(GroupSuffix), Of(ManagedSpec), t);
    } else {
      var n :| (n == Resolver || n == ResolutionRequest || n == ResolutionResponse) && w == EndWord(Of(ScopeMarker), Of(n));
      EndClash(Of(ScopeMarker), n, Of(n), t);
    }
  }

  lemma StartClash(r: Rule, s: Rule, t: string)
    requires r == Of(GroupSuffix) && s == Of(ManagedSpec) && System(All()) && Contains(t, StartWord(r, s))
    ensures !ClashFree(All(), t)
  {
    FactsOf(GroupSuffix);
    FactsOf(ManagedSpec);
    StartGlueOnly(GroupSuffix, r, ManagedSpec, s);
    assert r in All() && s in All() && r.key[0] != s.key[0];
    assert Clash(r, s, t);
  }

  lemma EndClash(r: Rule, n: Name, s: Rule, t: string)
    requires r == Of(ScopeMarker) && s == Of(n) && FirstOf(n) == 'r' && System(All()) && Contains(t, EndWord(r, s))
    ensures !ClashFree(All(), t)
  {
    FactsOf(ScopeMarker);
    FactsOf(n);
    EndGlueOnly(ScopeMarker, r, n, s);
    assert r in All() && s in All() && r.key[0] != s.key[0];
    assert Clash(r, s, t);
  }

  /** Go visits the table in no fixed order. The text it produces is nevertheless
      the same for every order exactly when the content holds no critical word. */
  lemma ReplacementOrderIrrelevantIff(t: string)
    ensures (forall o1, o2 | Arranges(o1, All()) && Arranges(o2, All()) :: Run(o1, t) == Run(o2, t))
       <==> !Critical(t)
  {
    AllSystem();
    forall r, s | r in All() && s in All() && r != s && (EndGlue(r, s) || StartGlue(r, s)) ensures Sharp(r, s) {
      AllSharp(r, s);
    }
    OrderIrrelevantIff(All(), t);
    forall r, s | r in All() && s in All() && r != s && Clash(r, s, t) ensures Critical(t) {
      ClashIsCritical(r, s, t);
    }
    if Critical(t) { CriticalIsClash(t); }
  }
}
