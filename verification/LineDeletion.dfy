/** The loop that deletes lines and jumps its own index, for any way of telling
    which lines ask for how many to be deleted. */
module LineDeletion {
  import opened Wrappers
  import opened Decimal

  /** The number of following lines that a line asks to delete, if it is a valid annotation. */
  type Counter = string -> Option<int>

  ghost predicate Sound(counts: Counter) {
    forall line :: counts(line).Some? ==> 0 < counts(line).value <= MAX_INT
  }

  /** Addition on a 64-bit int. */
  function WrapAdd(a: int, b: int): int {
    var n := a + b;
    if n > MAX_INT then n - 2 * MAX_INT - 2 else n
  }

  /** The lines kept from i on; None when the index runs past the largest int. */
  function Kept(counts: Counter, lines: seq<string>, i: nat): Option<seq<string>>
    decreases |lines| - i
  {
    if i >= |lines| then Some([])
    else
      match counts(lines[i])
      case Some(n) => if n <= 0 || i + n + 1 > MAX_INT then None else Kept(counts, lines, i + n + 1)
      case None =>
        match Kept(counts, lines, i + 1)
        case None => None
        case Some(rest) => Some([lines[i]] + rest)
  }

  function Prefixed(done: seq<string>, rest: Option<seq<string>>): Option<seq<string>> {
    match rest
    case None => None
    case Some(ls) => Some(done + ls)
  }

  lemma PrefixedEnds(ls: seq<string>, rest: Option<seq<string>>)
    ensures Prefixed([], rest) == rest
    ensures Prefixed(ls, Some([])) == Some(ls)
  {
    if rest.Some? { assert [] + rest.value == rest.value; }
    assert ls + [] == ls;
  }

  lemma PrefixedTwice(ls: seq<string>, more: seq<string>, rest: Option<seq<string>>)
    ensures Prefixed(ls + more, rest) == Prefixed(ls, Prefixed(more, rest))
  {
    if rest.Some? { assert ls + (more + rest.value) == (ls + more) + rest.value; }
  }

  /** One step on a line that stays. */
  lemma KeptPlainLine(counts: Counter, lines: seq<string>, i: nat)
    requires i < |lines| && counts(lines[i]).None?
    ensures Kept(counts, lines, i) == Prefixed([lines[i]], Kept(counts, lines, i + 1))
  {}

  /** One step on an annotation, with the index as the machine computes it. */
  lemma KeptAnnotation(counts: Counter, lines: seq<string>, i: nat, n: int)
    requires Sound(counts)
    requires i < |lines| <= MAX_INT && counts(lines[i]) == Some(n)
    ensures 0 < n <= MAX_INT
    ensures var next := WrapAdd(WrapAdd(i, n), 1);
      && next <= MAX_INT && (next < 0 || next == i + n + 1)
      && Kept(counts, lines, i) == if next < 0 then None else Kept(counts, lines, next)
  {}

  ghost predicate Subsequence(a: seq<string>, b: seq<string>)
    decreases |b|
  {
    a == [] || (b != [] && ((a[0] == b[0] && Subsequence(a[1..], b[1..])) || Subsequence(a, b[1..])))
  }

  lemma {:induction false} SubsequenceLater(a: seq<string>, b: seq<string>, n: nat)
    requires n <= |b| && Subsequence(a, b[n..])
    ensures Subsequence(a, b)
    decreases n
  {
    if n == 0 {
      assert b[0..] == b;
    } else {
      assert b[1..][n - 1..] == b[n..];
      SubsequenceLater(a, b[1..], n - 1);
    }
  }

  /** What is kept is a subsequence of the lines, and none of it is an annotation. */
  lemma KeptLines(counts: Counter, lines: seq<string>, i: nat)
    requires i <= |lines| && Kept(counts, lines, i).Some?
    ensures var out := Kept(counts, lines, i).value;
      && Subsequence(out, lines[i..])
      && forall l | l in out :: l in lines && counts(l).None?
  {
    KeptInOrder(counts, lines, i);
    KeptUnannotated(counts, lines, i);
  }

  lemma {:induction false} KeptInOrder(counts: Counter, lines: seq<string>, i: nat)
    requires i <= |lines| && Kept(counts, lines, i).Some?
    ensures Subsequence(Kept(counts, lines, i).value, lines[i..])
    decreases |lines| - i
  {
    if i < |lines| {
      var count := counts(lines[i]);
      var next := if count.None? then i + 1 else i + count.value + 1;
      if count.None? || next <= |lines| {
        KeptInOrder(counts, lines, next);
        assert lines[i..][next - i..] == lines[next..];
        if count.Some? { SubsequenceLater(Kept(counts, lines, i).value, lines[i..], next - i); }
      }
    }
  }

  lemma {:induction false} KeptUnannotated(counts: Counter, lines: seq<string>, i: nat)
    requires Kept(counts, lines, i).Some?
    ensures forall l | l in Kept(counts, lines, i).value :: l in lines && counts(l).None?
    decreases |lines| - i
  {
    if i < |lines| {
      var count := counts(lines[i]);
      KeptUnannotated(counts, lines, if count.None? then i + 1 else i + count.value + 1);
    }
  }

  lemma {:induction false} NothingToDelete(counts: Counter, lines: seq<string>, i: nat)
    requires i <= |lines| && forall l | l in lines :: counts(l).None?
    ensures Kept(counts, lines, i) == Some(lines[i..])
    decreases |lines| - i
  {
    if i < |lines| {
      assert lines[i] in lines;
      NothingToDelete(counts, lines, i + 1);
      assert lines[i..] == [lines[i]] + lines[i + 1..];
    }
  }

  /** The lines at which the loop stops to look. */
  function Visited(counts: Counter, lines: seq<string>, i: nat): set<nat>
    decreases |lines| - i
  {
    if i >= |lines| then {}
    else
      match counts(lines[i])
      case Some(n) => if n <= 0 || i + n + 1 > MAX_INT then {i} else {i} + Visited(counts, lines, i + n + 1)
      case None => {i} + Visited(counts, lines, i + 1)
  }

  predicate Overruns(counts: Counter, lines: seq<string>, j: nat) {
    j < |lines| && counts(lines[j]).Some? && j + counts(lines[j]).value + 1 > MAX_INT
  }

  /** The loop panics exactly when it stops at a line whose count carries the
      index past the largest int. */
  lemma PanicIff(counts: Counter, lines: seq<string>)
    requires Sound(counts)
    ensures Kept(counts, lines, 0).None? <==> exists j :: j in Visited(counts, lines, 0) && Overruns(counts, lines, j)
  {
    if Kept(counts, lines, 0).None? { var j := PanicHasOverrun(counts, lines, 0); }
    forall j | j in Visited(counts, lines, 0) && Overruns(counts, lines, j) ensures Kept(counts, lines, 0).None? {
      OverrunPanics(counts, lines, 0, j);
    }
  }

  lemma {:induction false} PanicHasOverrun(counts: Counter, lines: seq<string>, i: nat) returns (j: nat)
    requires Sound(counts)
    requires Kept(counts, lines, i).None?
    ensures j in Visited(counts, lines, i) && Overruns(counts, lines, j)
    decreases |lines| - i
  {
    var count := counts(lines[i]);
    j := i;
    if count.None? {
      j := PanicHasOverrun(counts, lines, i + 1);
    } else if i + count.value + 1 <= MAX_INT {
      j := PanicHasOverrun(counts, lines, i + count.value + 1);
    }
  }

  lemma {:induction false} OverrunPanics(counts: Counter, lines: seq<string>, i: nat, j: nat)
    requires Sound(counts)
    requires j in Visited(counts, lines, i) && Overruns(counts, lines, j)
    ensures Kept(counts, lines, i).None?
    decreases |lines| - i
  {
    var count := counts(lines[i]);
    if j != i {
      OverrunPanics(counts, lines, if count.None? then i + 1 else i + count.value + 1, j);
    }
  }

  lemma {:induction false} VisitedBounds(counts: Counter, lines: seq<string>, i: nat)
    requires Sound(counts)
    ensures forall j | j in Visited(counts, lines, i) :: i <= j < |lines|
    decreases |lines| - i
  {
    if i < |lines| {
      match counts(lines[i])
      case Some(n) => if i + n + 1 <= MAX_INT { VisitedBounds(counts, lines, i + n + 1); }
      case None => VisitedBounds(counts, lines, i + 1);
    }
  }

  lemma SmallCountsKeep(counts: Counter, lines: seq<string>)
    requires Sound(counts)
    requires forall l | l in lines && counts(l).Some? :: counts(l).value <= MAX_INT - |lines|
    ensures Kept(counts, lines, 0).Some?
  {
    PanicIff(counts, lines);
    VisitedBounds(counts, lines, 0);
    forall j | j in Visited(counts, lines, 0) ensures !Overruns(counts, lines, j) {
      assert lines[j] in lines;
    }
  }

  // ----------------------------------------- what one annotation deletes

  /** None of the lines from i up to j is an annotation. */
  ghost predicate PlainBetween(counts: Counter, lines: seq<string>, i: nat, j: nat)
    requires j <= |lines|
    decreases j - i
  {
    i < j ==> counts(lines[i]).None? && PlainBetween(counts, lines, i + 1, j)
  }

  lemma {:induction false} PlainBetweenIs(counts: Counter, lines: seq<string>, i: nat, j: nat)
    requires j <= |lines| && forall x | x in lines[..j] :: counts(x).None?
    ensures PlainBetween(counts, lines, i, j)
    decreases j - i
  {
    if i < j {
      assert lines[..j][i] == lines[i];
      PlainBetweenIs(counts, lines, i + 1, j);
    }
  }

  lemma {:induction false} KeptPlain(counts: Counter, lines: seq<string>, i: nat, j: nat)
    requires i <= j <= |lines| && PlainBetween(counts, lines, i, j)
    ensures Kept(counts, lines, i) == Prefixed(lines[i..j], Kept(counts, lines, j))
    decreases j - i
  {
    if i == j {
      PrefixedEnds([], Kept(counts, lines, j));
    } else {
      KeptPlainLine(counts, lines, i);
      KeptPlain(counts, lines, i + 1, j);
      PrefixedTwice([lines[i]], lines[i + 1..j], Kept(counts, lines, j));
      assert lines[i..j] == [lines[i]] + lines[i + 1..j];
    }
  }

  /** What stands before has no influence, except on how soon the index overflows. */
  lemma {:induction false} KeptShift(counts: Counter, lines: seq<string>, o: nat, c: seq<string>, i: nat)
    requires Sound(counts)
    requires o <= |lines| <= MAX_INT && lines[o..] == c && i <= |c| && Kept(counts, lines, o + i).Some?
    ensures Kept(counts, c, i) == Kept(counts, lines, o + i)
    decreases |c| - i
  {
    if i < |c| {
      var line := c[i];
      assert lines[o + i] == line;
      match counts(line)
      case Some(n) => ShiftAnnotation(counts, lines, o, c, i, n);
      case None =>
        KeptPlainLine(counts, lines, o + i);
        KeptPlainLine(counts, c, i);
        KeptShift(counts, lines, o, c, i + 1);
    }
  }

  lemma {:induction false} ShiftAnnotation(counts: Counter, lines: seq<string>, o: nat, c: seq<string>, i: nat, n: int)
    requires Sound(counts)
    requires o <= |lines| <= MAX_INT && lines[o..] == c && i < |c| && Kept(counts, lines, o + i).Some?
    requires lines[o + i] == c[i] && counts(c[i]) == Some(n)
    ensures Kept(counts, c, i) == Kept(counts, lines, o + i)
    decreases |c| - i, 0
  {
    KeptAnnotation(counts, lines, o + i, n);
    KeptAnnotation(counts, c, i, n);
    if i + n + 1 <= |c| { KeptShift(counts, lines, o, c, i + n + 1); }
  }

  /** An annotation deletes its own line and as many after it as it says, or as
      there are. The lines before it stay, and the pass goes on behind them. */
  lemma DeletesBlock(counts: Counter, a: seq<string>, l: string, n: nat, b: seq<string>, c: seq<string>)
    requires Sound(counts)
    requires forall x | x in a :: counts(x).None?
    requires counts(l) == Some(n) && (|b| == n || (|b| < n && c == []))
    requires |a + [l] + b + c| <= MAX_INT
    ensures var lines := a + [l] + b + c;
      && (Kept(counts, lines, 0).Some? ==> Kept(counts, c, 0).Some? && Kept(counts, lines, 0).value == a + Kept(counts, c, 0).value)
      && ((forall x | x in lines && counts(x).Some? :: counts(x).value <= MAX_INT - |lines|) ==> Kept(counts, lines, 0).Some?)
  {
    var front := a + [l] + b;
    var lines := front + c;
    assert lines[..|a|] == a;
    PlainBetweenIs(counts, lines, 0, |a|);
    KeptPlain(counts, lines, 0, |a|);
    assert lines[0..|a|] == a && lines[|a|] == l;
    if Kept(counts, lines, 0).Some? {
      if |b| == n {
        assert |front| == |a| + n + 1;
        assert lines[|front|..] == c;
        KeptShift(counts, lines, |front|, c, 0);
      }
    }
    if forall x | x in lines && counts(x).Some? :: counts(x).value <= MAX_INT - |lines| { SmallCountsKeep(counts, lines); }
  }
}
