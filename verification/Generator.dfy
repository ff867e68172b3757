/** The source rewriter: lines are deleted, a comment is inserted, and the
    fourteen replacements are applied in whatever order the map yields them. */
module Generator {
  import opened Wrappers
  import opened Decimal
  import opened Splitting
  import opened Rewriting
  import opened Confluence
  import opened Replacements
  import opened Annotations
  import opened LineDeletion
  import opened ReplacementOrder

  // -------------------------------------------------------- deleting lines

  datatype Panic = IndexOutOfRange

  lemma DeleteCountSound()
    ensures Sound(DeleteCount)
  {
    forall line ensures DeleteCount(line).Some? ==> 0 < DeleteCount(line).value <= MAX_INT { DeleteCountBounds(line); }
  }

  /** processDeleteAnnotations. The loop adds the count to its own index, with
      the wrap-around of the machine; a negative index then ends it in a panic. */
  method ProcessDeleteAnnotations(content: string) returns (r: Result<string, Panic>)
    requires |Split(content, '\n')| <= MAX_INT
    ensures r == match Kept(DeleteCount, Split(content, '\n'), 0)
                 case None => Err(IndexOutOfRange)
                 case Some(ls) => Ok(Join(ls, '\n'))
  {
    var lines := Split(content, '\n');
    var result: seq<string> := [];
    var i := 0;
    PrefixedEnds([], Kept(DeleteCount, lines, 0));
    while i < |lines|
      invariant i <= MAX_INT
      invariant Kept(DeleteCount, lines, 0) == if i < 0 then None else Prefixed(result, Kept(DeleteCount, lines, i))
      decreases if i < 0 then 0 else |lines| - i + 1
    {
      if i < 0 {
        return Err(IndexOutOfRange);
      }
      var line := lines[i];
      var num := DeleteCount(line);
      if num.Some? {
        DeleteCountSound();
        KeptAnnotation(DeleteCount, lines, i, num.value);
        i := WrapAdd(i, num.value);
      } else {
        KeptPlainLine(DeleteCount, lines, i);
        PrefixedTwice(result, [line], Kept(DeleteCount, lines, i + 1));
        result := result + [line];
      }
      i := WrapAdd(i, 1);
    }
    PrefixedEnds(result, None);
    return Ok(Join(result, '\n'));
  }

  /** The text after deletion, if the loop does not panic. */
  function Deleted(content: string): Option<string> {
    match Kept(DeleteCount, Split(content, '\n'), 0)
    case None => None
    case Some(ls) => Some(Join(ls, '\n'))
  }

  /** A second pass changes nothing. */
  lemma DeleteIdempotent(content: string)
    requires Deleted(content).Some?
    ensures Deleted(Deleted(content).value) == Deleted(content)
  {
    var lines := Split(content, '\n');
    var out := Kept(DeleteCount, lines, 0).value;
    KeptLines(DeleteCount, lines, 0);
    PartsFree(content, '\n');
    if out == [] {
      assert DeleteCount("").None?;
      assert Split("", '\n') == [""];
      NothingToDelete(DeleteCount, [""], 0);
    } else {
      SplitJoin(out, '\n');
      NothingToDelete(DeleteCount, out, 0);
      assert out[0..] == out;
    }
  }

  /** Counts that leave room for the number of lines never panic. */
  lemma SmallCountsSuffice(content: string)
    requires var lines := Split(content, '\n');
      forall l | l in lines && DeleteCount(l).Some? :: DeleteCount(l).value <= MAX_INT - |lines|
    ensures Deleted(content).Some?
  {
    DeleteCountSound();
    SmallCountsKeep(DeleteCount, Split(content, '\n'));
  }

  /** What one annotation deletes, for the text. */
  lemma DeletesBlockOfText(a: seq<string>, l: string, n: nat, b: seq<string>, c: seq<string>)
    requires forall x | x in a + [l] + b + c :: '\n' !in x
    requires forall x | x in a :: DeleteCount(x).None?
    requires DeleteCount(l) == Some(n) && (|b| == n || (|b| < n && c == []))
    requires |a + [l] + b + c| <= MAX_INT && Kept(DeleteCount, a + [l] + b + c, 0).Some?
    ensures Kept(DeleteCount, c, 0).Some?
    ensures Deleted(Join(a + [l] + b + c, '\n')) == Some(Join(a + Kept(DeleteCount, c, 0).value, '\n'))
  {
    SplitJoin(a + [l] + b + c, '\n');
    DeleteCountSound();
    DeletesBlock(DeleteCount, a, l, n, b, c);
  }

  // ------------------------------------------------- the generation comment

  const COMMENT_HEAD := "// Code generated by hac"
  const COMMENT_TAIL := "/generate-cluster-scope.go - DO NOT EDIT."
  const COMMENT := COMMENT_HEAD + ("k" + COMMENT_TAIL)

  predicate IsPackageLine(line: string) {
    "package " <= TrimSpace(line)
  }

  function FirstPackageLine(lines: seq<string>): Option<nat>
    ensures FirstPackageLine(lines).Some? ==> FirstPackageLine(lines).value < |lines|
  {
    if lines == [] then None
    else if IsPackageLine(lines[0]) then Some(0)
    else
      match FirstPackageLine(lines[1..])
      case Some(i) => Some(i + 1)
      case None => None
  }

  function Commented(lines: seq<string>): seq<string> {
    match FirstPackageLine(lines)
    case None => lines
    case Some(i) => lines[..i] + [COMMENT, ""] + lines[i..]
  }

  lemma {:induction false} FirstPackageLineIs(lines: seq<string>, i: nat)
    requires i <= |lines| && forall j | 0 <= j < i :: !IsPackageLine(lines[j])
    ensures i == |lines| ==> FirstPackageLine(lines) == None
    ensures i < |lines| && IsPackageLine(lines[i]) ==> FirstPackageLine(lines) == Some(i)
  {
    if i > 0 { FirstPackageLineIs(lines[1..], i - 1); }
  }

  /** Such a line begins, spaces aside, with "package " and goes on with something that is not a space. */
  lemma PackageLineIff(line: string)
    ensures IsPackageLine(line) <==> exists left, rest :: line == left + ("package " + rest) && Spaces(left) && !Spaces(rest)
  {
    var left, right := TrimSplits(line);
    var t := TrimSpace(line);
    if IsPackageLine(line) {
      var name := t[8..];
      assert t == "package " + name && t[7] == ' ' && name != "" && name[|name| - 1] == t[|t| - 1];
      assert name[|name| - 1] in name + right;
      assert line == left + ("package " + (name + right));
    }
    forall before, rest | line == before + ("package " + rest) && Spaces(before) && !Spaces(rest) ensures IsPackageLine(line) {
      PackageTrims(before, rest);
    }
  }

  lemma PackageTrims(before: string, rest: string)
    requires Spaces(before) && !Spaces(rest)
    ensures "package " <= TrimSpace(before + ("package " + rest))
  {
    var l, r := TrimSplits(rest);
    NotOnlySpaces(l, TrimSpace(rest), r);
    PrefixTrims(before, "package ", l + TrimSpace(rest), r);
    assert "package " + (l + TrimSpace(rest) + r) == "package " + (l + TrimSpace(rest)) + r;
  }

  lemma NotOnlySpaces(l: string, t: string, r: string)
    requires Spaces(l) && Spaces(r) && !Spaces(l + t + r)
    ensures t != ""
  {
    var e :| e in l + t + r && !IsSpace(e);
    assert e in l || e in t || e in r;
  }

  lemma PrefixTrims(before: string, word: string, name: string, r: string)
    requires Spaces(before) && Spaces(r) && word != "" && name != ""
    requires !IsSpace(word[0]) && !IsSpace(name[|name| - 1])
    ensures word <= TrimSpace(before + (word + name + r))
  {
    assert before + (word + name + r) == before + (word + name) + r;
    TrimIs(before, word + name, r);
  }

  /** The comment stands directly before the first package line. */
  lemma CommentedIs(a: seq<string>, line: string, c: seq<string>)
    requires forall x | x in a :: !IsPackageLine(x)
    ensures Commented(a) == a
    ensures IsPackageLine(line) ==>
      var comment := "// Code generated by hac" + ("k" + "/generate-cluster-scope.go - DO NOT EDIT.");
      Commented(a + ([line] + c)) == a + [comment, ""] + ([line] + c)
  {
    var lines := a + ([line] + c);
    FirstPackageLineIs(a, |a|);
    forall j | 0 <= j < |a| ensures !IsPackageLine(lines[j]) { assert lines[j] == a[j] && a[j] in a; }
    FirstPackageLineIs(lines, |a|);
    assert lines[..|a|] == a && lines[|a|..] == [line] + c;
  }

  method AddGenerationComment(content: string) returns (r: string)
    ensures r == Join(Commented(Split(content, '\n')), '\n')
  {
    var lines := Split(content, '\n');
    for i := 0 to |lines|
      invariant forall j | 0 <= j < i :: !IsPackageLine(lines[j])
    {
      if IsPackageLine(lines[i]) {
        FirstPackageLineIs(lines, i);
        var result := lines[..i];
        result := result + [COMMENT, ""];
        result := result + lines[i..];
        return Join(result, '\n');
      }
    }
    FirstPackageLineIs(lines, |lines|);
    JoinSplit(content, '\n');
    return content;
  }

  // -------------------------------------------------- the whole transformation

  /** What the replacements start from. */
  function Prepared(content: string): Option<string> {
    match Deleted(content)
    case None => None
    case Some(d) => Some(Join(Commented(Split(d, '\n')), '\n'))
  }

  /** The lines that are kept, with the comment before the first package line among them. */
  lemma PreparedIs(content: string, a: seq<string>, line: string, c: seq<string>)
    requires forall x | x in a :: !IsPackageLine(x)
    ensures Kept(DeleteCount, Split(content, '\n'), 0) == Some(a) ==> Prepared(content) == Some(Join(a, '\n'))
    ensures Kept(DeleteCount, Split(content, '\n'), 0) == Some(a + ([line] + c)) && IsPackageLine(line) ==>
      var comment := "// Code generated by hac" + ("k" + "/generate-cluster-scope.go - DO NOT EDIT.");
      Prepared(content) == Some(Join(a + [comment, ""] + ([line] + c), '\n'))
  {
    CommentedIs(a, line, c);
    var kept := Kept(DeleteCount, Split(content, '\n'), 0);
    if kept.Some? {
      KeptLines(DeleteCount, Split(content, '\n'), 0);
      PartsFree(content, '\n');
      if kept.value == [] {
        assert Split("", '\n') == [""] && TrimSpace("") == "";
        CommentedIs([""], line, c);
      } else {
        SplitJoin(kept.value, '\n');
      }
    }
  }

  /** transformContent; order is what the iteration over the map happens to be. */
  method TransformContent(content: string, order: seq<Rule>) returns (r: Result<string, Panic>)
    requires |Split(content, '\n')| <= MAX_INT
    requires Arranges(order, All())
    ensures r == match Prepared(content)
                 case None => Err(IndexOutOfRange)
                 case Some(p) => Ok(Run(order, p))
  {
    var deleted := ProcessDeleteAnnotations(content);
    if deleted.Err? {
      return Err(IndexOutOfRange);
    }
    var text := AddGenerationComment(deleted.value);
    ghost var start := text;
    for i := 0 to |order|
      invariant Run(order, start) == Run(order[i..], text)
    {
      assert order[i] in order && order[i..][0] == order[i] && order[i..][1..] == order[i + 1..];
      assert forall r | r in order[i..] :: r in order;
      text := Replace(order[i], text);
    }
    return Ok(text);
  }

  // ------------------------------------- when the order of the map matters

  /** A word without line breaks lies in joined lines exactly when it lies in one of them. */
  lemma ContainsAcross(a: string, b: string, w: string)
    requires w != "" && '\n' !in w
    ensures Contains(a + ['\n'] + b, w) <==> Contains(a, w) || Contains(b, w)
  {
    var rest := ['\n'] + b;
    assert a + ['\n'] + b == a + rest;
    if Contains(a + rest, w) { FoundOnOneSide(a, b, w); }
    if Contains(a, w) { StillInFront(a, rest, w); }
    if Contains(b, w) {
      assert (a + rest)[|a| + 1..] == b;
      ContainsSuffix(a + rest, w, |a| + 1);
    }
  }

  lemma StillInFront(a: string, rest: string, w: string)
    requires Contains(a, w)
    ensures Contains(a + rest, w)
  {
    var p := Occurrence(a, w);
    assert (a + rest)[p..] == a[p..] + rest;
    ContainsAt(a + rest, w, p);
  }

  lemma FoundOnOneSide(a: string, b: string, w: string)
    requires w != "" && '\n' !in w && Contains(a + (['\n'] + b), w)
    ensures Contains(a, w) || Contains(b, w)
  {
    var t := a + (['\n'] + b);
    var p := Occurrence(t, w);
    if p + |w| <= |a| {
      OccursInFront(a, ['\n'] + b, w, p);
      ContainsAt(a, w, p);
    } else if p > |a| {
      assert t[p..] == b[p - |a| - 1..];
      ContainsAt(b, w, p - |a| - 1);
    } else {
      OccursAt(t, w, p, |a| - p);
    }
  }

  lemma OccursInFront(a: string, rest: string, w: string, p: nat)
    requires p + |w| <= |a| && w <= (a + rest)[p..]
    ensures w <= a[p..]
  {
    assert (a + rest)[p..] == a[p..] + rest;
  }

  lemma OccursAt(t: string, w: string, p: nat, i: nat)
    requires p <= |t| && w <= t[p..] && i < |w|
    ensures p + i < |t| && t[p + i] == w[i]
  {
    assert t[p..][i] == t[p + i];
  }

  lemma {:induction false} ContainsLines(lines: seq<string>, w: string)
    requires w != "" && '\n' !in w
    ensures Contains(Join(lines, '\n'), w) <==> exists l :: l in lines && Contains(l, w)
  {
    if |lines| == 1 {
      assert lines[0] in lines;
    } else if |lines| > 1 {
      ContainsAcross(lines[0], Join(lines[1..], '\n'), w);
      ContainsLines(lines[1..], w);
      assert forall l :: l in lines <==> l == lines[0] || l in lines[1..];
    }
  }

  lemma ScopeHasNoBreak()
    ensures '\n' !in "kubebuilder:resource:" && '\n' !in "scope=Namespaced"
  {}

  lemma PiecesHaveNoBreak()
    ensures '\n' !in "reference.NewAPI" && '\n' !in "reference." && '\n' !in "Namespaced"
    ensures '\n' !in "Resolver" && '\n' !in "ResolutionRequest" && '\n' !in "ResolutionResponse"
    ensures '\n' !in "m." && '\n' !in "crossplane.io"
    ensures '\n' !in "xpv" && '\n' !in "2.Managed" && '\n' !in "ResourceSpec"
  {}

  lemma KeyHasNoBreak(p: Parts)
    requires '\n' !in p.pre && '\n' !in p.drop && '\n' !in p.post
    ensures '\n' !in Build(p).key
  {}

  lemma CriticalKeyHasNoBreak(n: Name)
    requires n == ScopeMarker || FirstOf(n) == 'r' || n == GroupSuffix || n == ManagedSpec
    ensures '\n' !in Of(n).key
  {
    ScopeHasNoBreak();
    PiecesHaveNoBreak();
    KeyHasNoBreak(PartsOf(n));
  }

  lemma WordsHaveNoBreak(r: Rule, s: Rule)
    requires s.key != "" && '\n' !in r.key && '\n' !in s.key
    ensures '\n' !in EndWord(r, s) && '\n' !in StartWord(r, s)
  {}

  /** A critical word has no line break and begins with "ku" or "x". */
  lemma CriticalWordShape(w: string)
    requires w in CriticalWords()
    ensures |w| >= 2 && '\n' !in w && ((w[0] == 'k' && w[1] == 'u') || w[0] == 'x')
  {
    if w == StartWord(Of(GroupSuffix), Of(ManagedSpec)) {
      FactsOf(ManagedSpec);
      StartShape(Of(GroupSuffix), Of(ManagedSpec));
    } else {
      var n :| FirstOf(n) == 'r' && w == EndWord(Of(ScopeMarker), Of(n));
      FactsOf(ScopeMarker);
      FactsOf(n);
      CriticalKeyHasNoBreak(n);
      CriticalKeyHasNoBreak(ScopeMarker);
      EndShape(Of(ScopeMarker), n, Of(n));
    }
  }

  lemma StartShape(r: Rule, s: Rule)
    requires r == Of(GroupSuffix) && s == Of(ManagedSpec) && Facts(ManagedSpec, s)
    ensures var w := StartWord(r, s); |w| >= 2 && '\n' !in w && w[0] == 'x'
  {
    CriticalKeyHasNoBreak(GroupSuffix);
    CriticalKeyHasNoBreak(ManagedSpec);
    WordsHaveNoBreak(r, s);
  }

  lemma EndShape(r: Rule, n: Name, s: Rule)
    requires Facts(ScopeMarker, r) && Facts(n, s) && '\n' !in r.key && '\n' !in s.key
    ensures var w := EndWord(r, s); |w| >= 2 && '\n' !in w && w[0] == 'k' && w[1] == 'u'
  {
    WordsHaveNoBreak(r, s);
  }

  lemma CriticalLines(lines: seq<string>)
    ensures Critical(Join(lines, '\n')) <==> exists l :: l in lines && Critical(l)
  {
    forall w | w in CriticalWords()
      ensures Contains(Join(lines, '\n'), w) <==> exists l :: l in lines && Contains(l, w)
    {
      CriticalWordShape(w);
      ContainsLines(lines, w);
    }
  }

  lemma HeadPieces()
    ensures 'x' !in COMMENT_HEAD && 'k' !in COMMENT_HEAD
  {}

  lemma TailHasNoX()
    ensures 'x' !in COMMENT_TAIL && COMMENT_TAIL != "" && COMMENT_TAIL[0] == '/'
  {}

  lemma TailHasNoK()
    ensures 'k' !in COMMENT_TAIL
  {}

  /** The comment and the empty line after it add nothing critical. */
  lemma InsertedNotCritical()
    ensures !Critical(COMMENT) && !Critical("")
  {
    HeadPieces();
    TailHasNoX();
    TailHasNoK();
    forall w | w in CriticalWords() ensures !Contains(COMMENT, w) && !Contains("", w) {
      CriticalWordShape(w);
      NotInComment(COMMENT_HEAD, COMMENT_TAIL, w);
    }
  }

  lemma NotInComment(head: string, tail: string, w: string)
    requires |w| >= 2 && ((w[0] == 'k' && w[1] == 'u') || w[0] == 'x')
    requires 'x' !in head && 'k' !in head && 'x' !in tail && 'k' !in tail && tail != "" && tail[0] == '/'
    ensures !Contains(head + (['k'] + tail), w)
  {
    var t := head + (['k'] + tail);
    forall p | 0 <= p < |t| ensures t[p] in head || p == |head| || t[p] in tail {}
    if Contains(t, w) {
      var p := Occurrence(t, w);
      OccursAt(t, w, p, 0);
      OccursAt(t, w, p, 1);
    }
  }

  lemma CommentedCritical(lines: seq<string>)
    ensures (exists l :: l in Commented(lines) && Critical(l)) <==> exists l :: l in lines && Critical(l)
  {
    InsertedNotCritical();
    match FirstPackageLine(lines)
    case None =>
    case Some(i) =>
      assert lines == lines[..i] + lines[i..];
      assert forall l :: l in Commented(lines) <==> l in lines || l == COMMENT || l == "";
  }

  /** The output does not depend on the order of the map exactly when no line
      that survives deletion holds a critical word. */
  lemma TransformDeterministicIff(content: string)
    requires Prepared(content).Some?
    ensures (forall o1, o2 | Arranges(o1, All()) && Arranges(o2, All()) ::
               Run(o1, Prepared(content).value) == Run(o2, Prepared(content).value))
       <==> !exists l :: l in Kept(DeleteCount, Split(content, '\n'), 0).value && Critical(l)
  {
    var kept := Kept(DeleteCount, Split(content, '\n'), 0).value;
    var d := Deleted(content).value;
    ReplacementOrderIrrelevantIff(Prepared(content).value);
    CriticalLines(Commented(Split(d, '\n')));
    CommentedCritical(Split(d, '\n'));
    CriticalLines(Split(d, '\n'));
    JoinSplit(d, '\n');
    CriticalLines(kept);
  }
}
