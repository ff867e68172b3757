/** One input for each of the conditions under which the code does less than it seems to. */
module Witnesses {
  import opened Wrappers
  import opened Decimal
  import opened Arguments
  import opened CanonicalJson
  import opened Splitting
  import opened Controller
  import opened Runs
  import opened Topology
  import opened Rewriting
  import opened Confluence
  import opened Replacements
  import opened ReplacementOrder
  import opened Annotations
  import opened LineDeletion
  import opened Generator
  import opened Spelling
  import Queues
  import Vhosts
  import Immutability
  import BindingId
  import Bindings
  import Neighbours

  // -------------------------------------------------------------- arguments

  function QueueWith(a: Option<Strings>): ObjectParameters {
    ObjectParameters(None, "v", Some(ObjectSettings(None, None, None, a)))
  }

  lemma TwoDigits(a: char, b: char)
    requires IsDigit(a) && IsDigit(b)
    ensures Decimal.Value([a, b]) == 10 * DigitValue(a) + DigitValue(b)
  {
    assert [a, b][..1] == [a];
    assert [a][..0] == "";
    assert Decimal.Value([a]) == DigitValue(a);
  }

  lemma PlusFive()
    ensures !Survives("+5") && ToText(ToValue("+5")) == "5"
    ensures Garbled(QueueWith(Some(map["x-max-length" := "+5"])))
  {
    assert Unsigned("+5") == "5";
    assert "5"[..0] == "";
    assert Decimal.Value("5") == 5;
    assert Print(5) == "5";
    var m: Strings := map["x-max-length" := "+5"];
    assert "x-max-length" in m && !Survives(m["x-max-length"]);
  }

  lemma LeadingZero()
    ensures !Survives("07") && ToText(ToValue("07")) == "7"
    ensures Garbled(QueueWith(Some(map["x-max-priority" := "07"])))
  {
    assert Unsigned("07") == "07";
    TwoDigits('0', '7');
    assert "07" == ['0', '7'];
    assert Print(7) == "7";
    var m: Strings := map["x-max-priority" := "07"];
    assert "x-max-priority" in m && !Survives(m["x-max-priority"]);
  }

  lemma NextDigit(n: nat, d: nat)
    requires n > 0 && d < 10
    ensures PrintNat(10 * n + d) == PrintNat(n) + ["0123456789"[d]]
  {
    assert (10 * n + d) / 10 == n && (10 * n + d) % 10 == d;
  }

  lemma ThreeHundred()
    ensures Print(300) == "300"
  {
    NextDigit(3, 0);
    NextDigit(30, 0);
    assert "3" + "0" == "30" && "30" + "0" == "300";
  }

  /** A time to live reaches the broker as an integer. */
  lemma TimeToLive()
    ensures ToTyped(map["x-message-ttl" := "300"]) == map["x-message-ttl" := Number(300)]
  {
    ThreeHundred();
    PrintedIsNumber(300);
  }

  /** A queue without arguments, as the broker answers it, is flagged twice. */
  lemma FlaggedTwice()
    ensures var p := QueueWith(None);
      var api := ObjectInfo("q", "v", "classic", true, false, map[]);
      var q := Persisted(Queues.Initialized(p, api));
      Queues.Initialized(p, api) != p && Queues.Initialized(q, api) != q
  {
    Queues.FlaggedAgainIff(QueueWith(None), ObjectInfo("q", "v", "classic", true, false, map[]));
    assert ToStrings(map[]) == map[];
  }

  lemma ArgumentsReplaced()
    ensures var one, two := QueueWith(Some(map["x-expires" := "1"])), QueueWith(Some(map["x-expires" := "2"]));
      && !Immutability.Admitted(one, two)
      && Immutability.History([one, one.(settings := None), two])
  {
    var one := QueueWith(Some(map["x-expires" := "1"]));
    var m1: Strings, m2: Strings := map["x-expires" := "1"], map["x-expires" := "2"];
    assert m1["x-expires"][0] != m2["x-expires"][0];
    Immutability.TwoEditsChangeArguments(one, m2);
  }

  const CLASSIC := ObjectInfo("", "v", "classic", true, false, map[])
  const FOREIGN: map<ObjectKey, ObjectInfo> := map[("v", "b") := CLASSIC]
  const UNNAMED := ObjectParameters(None, "v", None)
  const SHOP: Immutability.QueueWorld<nat> := World(
    map[1 := CrState("a", UNNAMED, None, true, SetCrossplaneManaged(map[], "a"))], FOREIGN[("v", "a") := CLASSIC], [])

  lemma ShopIsExclusive()
    ensures Exclusive(Queues.QueueKind(), SHOP, FOREIGN)
  {
    assert "a"[0] != "b"[0];
    assert KeyOf(Queues.QueueKind(), SHOP.crs[1]) == ("v", "a");
  }

  /** The unset name of queue "a" is set to "b", which is not its own, and the resource deleted. */
  lemma RenamedAndDeleted(server: Server<Declaration, ObjectInfo>)
    requires server.reachable && server.delete
    ensures var edit: Immutability.QueueStep<nat> := Edit(1, UNNAMED.(name := Some("b")));
      && Exclusive(Queues.QueueKind(), SHOP, FOREIGN)
      && Immutability.Admitted(UNNAMED, edit.spec)
      && exists key :: key in FOREIGN && key !in Runs.Deleted(Queues.QueueKind(), Next(Queues.QueueKind(), Persisted, SHOP, edit), 1, server).objects
  {
    ShopIsExclusive();
    Immutability.DeleteHitsForeignIff(SHOP, FOREIGN, 1, UNNAMED.(name := Some("b")), server);
  }

  // ------------------------------------------------------------------- tags

  lemma TagsPutBack()
    ensures var p := Vhosts.VhostParameters(None, Some(Vhosts.UNSET.(tags := Some(["new"]))));
      var api := Vhosts.VhostInfo("v", "", ["old"], "", false, 0, 0, 0);
      var late := Vhosts.LateInitialize(p, api);
      && p.settings.value.tags != Some(api.tags)
      && late.settings.value.tags == Some(["old"]) && Vhosts.IsUpToDate(late, api)
  {
    assert ["new"][0][0] != ["old"][0][0];
  }

  // --------------------------------------------------------------- bindings

  const ROUTED := Bindings.BindingParameters("s", "/", "q", "queue", "k", None)

  function Named(p: Bindings.BindingParameters, key: string): Bindings.Cr {
    CrState("b", p, None, false, SetCrossplaneManaged(map[], Bindings.ExternalNameOf(p, key)))
  }

  lemma NamedIs(p: Bindings.BindingParameters, key: string)
    ensures Bindings.StoredName(Named(p, key)) == Bindings.ExternalNameOf(p, key)
    ensures IsCrossplaneManaged(Named(p, key).annotations) && Named(p, key).forProvider == p
  {}

  lemma FilterTwo(f: Bindings.BindingInfo -> bool, x: Bindings.BindingInfo, y: Bindings.BindingInfo)
    ensures Bindings.Filter(f, [x, y]) == (if f(x) then [x] else []) + (if f(y) then [y] else [])
  {
    assert [x, y][1..] == [y] && [y][1..] == [];
    assert Bindings.Filter(f, [y]) == (if f(y) then [y] else []) + Bindings.Filter(f, []);
  }

  lemma DeletesSecond(cr: Bindings.Cr, own: Bindings.BindingInfo, other: Bindings.BindingInfo, server: Bindings.BindingServer)
    requires Bindings.BetweenIn(cr.forProvider)(own) && Bindings.BetweenIn(cr.forProvider)(other)
    requires cr.forProvider.destinationType == "queue" && IsCrossplaneManaged(cr.annotations) && server.deletes
    requires BindingId.KeySlot(Bindings.StoredName(cr)) == Some(other.propertiesKey) && own.propertiesKey != other.propertiesKey
    ensures var (seen, r) := Bindings.ObserveOf(cr, [own, other], true);
      && r.Ok? && r.value.found
      && Bindings.DeleteOf(seen, [own, other], server).0 == [own]
  {
    var p, key, list := cr.forProvider, other.propertiesKey, [own, other];
    FilterTwo(Bindings.BetweenIn(p), own, other);
    assert list[1..] == [other];
    assert Bindings.FirstMatch(p, key, list[1..]) == Some(other);
    assert Bindings.FirstMatch(p, key, list) == Some(other);
    FilterTwo(Bindings.Survivors(p, key), own, other);
  }

  /** Next to the resource's own binding, declared with routing key "k", there is
      one with routing key "q", the name of the queue: Delete removes that one. */
  lemma DefaultVhostDeletesNeighbour(server: Bindings.BindingServer)
    requires server.deletes
    ensures var own, other := Bindings.Generate(ROUTED, "k"), Bindings.Generate(ROUTED.(routingKey := "q"), "q");
      var (cr, r) := Bindings.ObserveOf(Named(ROUTED, "k"), [own, other], true);
      && r.Ok? && r.value.found
      && Bindings.DeleteOf(cr, [own, other], server).0 == [own]
  {
    var own, other := Bindings.Generate(ROUTED, "k"), Bindings.Generate(ROUTED.(routingKey := "q"), "q");
    BindingId.DefaultVhostLosesKey("s", "queue", "q", "k");
    NamedIs(ROUTED, "k");
    assert own.propertiesKey[0] != 'q';
    DeletesSecond(Named(ROUTED, "k"), own, other, server);
  }

  /** A binding made without arguments, in an ordinary virtual host, and given one later. */
  lemma ArgumentAddedLater()
    ensures var p := ROUTED.(vhost := "v");
      var edited := Named(p, "k").(forProvider := p.(arguments := Some(map["x-match" := "all"])));
      && Bindings.Admitted(p, edited.forProvider)
      && Bindings.ObserveOf(edited, [Bindings.Generate(p, "k")], true).1 == Ok(Observation(true, false, false))
  {
    var p := ROUTED.(vhost := "v");
    var a: Strings := map["x-match" := "all"];
    var own, q := Bindings.Generate(p, "k"), p.(arguments := Some(a));
    var edited := Named(p, "k").(forProvider := q);
    assert "x-match" in a && own.arguments == map[];
    BindingId.KeyRecoveredIff("v", "s", "queue", "q", "k");
    NamedIs(p, "k");
    assert Bindings.StoredName(edited) == Bindings.StoredName(Named(p, "k"));
    Bindings.ListingMembers(q, [own], own);
    Bindings.FirstMatchIs(q, "k", Bindings.Listing(q, [own]));
    Bindings.ListingMembers(q, [own], Bindings.Find(edited, Bindings.Listing(q, [own])).value);
    Bindings.UpToDateIff(q, own);
  }

  /** A percent sign with one digit after it. */
  lemma BadHeader()
    ensures BindingId.KeyFromLocation("q/%2").None?
  {
    var e := "%2";
    assert "q/%2" == "q" + ['/'] + e;
    SplitConcat("q", e, '/');
    SplitFree(e, '/');
    BindingId.DecodesIff(e);
    assert e[0] == '%' && !(0 + 2 < |e|);
  }

  /** Two resources for the same binding, the second of which finds the first one's. */
  lemma SecondShutOut(server: Bindings.BindingServer)
    requires server.reachable
    ensures var own := Bindings.Generate(ROUTED, "k");
      var second: Bindings.Cr := CrState("c", ROUTED, None, false, map[]);
      var w := Neighbours.Neighbourhood(map[1 := Named(ROUTED, "k"), 2 := second], [own], []);
      Neighbours.OneEach(w) && Neighbours.Reconciled(w, 2, server).sent == [] && !Neighbours.Managed(Neighbours.Reconciled(w, 2, server), 2)
  {
    var own := Bindings.Generate(ROUTED, "k");
    var second: Bindings.Cr := CrState("c", ROUTED, None, false, map[]);
    var w := Neighbours.Neighbourhood(map[1 := Named(ROUTED, "k"), 2 := second], [own], []);
    assert own in w.bindings && Neighbours.Joins(ROUTED, own);
    assert Neighbours.Occupied(ROUTED, w.bindings);
    assert !Neighbours.Managed(w, 2);
    Neighbours.OccupiedListing(ROUTED, w.bindings);
    Neighbours.StepOf(w, Neighbours.Reconcile(2, server), 2);
  }

  // ------------------------------------------------------------ the rewriter

  lemma MarkerHasNoBreak()
    ensures '\n' !in MARKER
  {}

  lemma CountedLine(n: nat)
    requires 0 < n <= MAX_INT
    ensures DeleteCount(MARKER + Print(n)) == Some(n) && '\n' !in MARKER + Print(n)
  {
    var count := Print(n);
    PrintNatDigits(n);
    AtoiPrint(n);
    MarkerHasNoBreak();
    AfterFront(MARKER, count);
    assert IsDigit(count[0]) && IsDigit(count[|count| - 1]);
    assert TrimSpace(count) == count;
  }

  lemma AfterFront(w: string, rest: string)
    ensures After(w + rest, w) == Some(rest)
  {
    assert (w + rest)[|w|..] == rest;
  }

  /** An annotation within a comment line, as it is written in the sources. */
  lemma DeletesNextLine()
    ensures Generator.Deleted(Join(["a", "// +cluster-scope:delete=1", "b", "c"], '\n')) == Some(Join(["a", "c"], '\n'))
  {
    SampleLine();
    Unannotated("a");
    Unannotated("c");
    DeletesNext("a", "// +cluster-scope:delete=1", "b", "c");
  }

  lemma DeletesNext(a: string, line: string, b: string, c: string)
    requires DeleteCount(a).None? && DeleteCount(c).None? && DeleteCount(line) == Some(1)
    requires '\n' !in a && '\n' !in line && '\n' !in b && '\n' !in c
    ensures Generator.Deleted(Join([a, line, b, c], '\n')) == Some(Join([a, c], '\n'))
  {
    var lines := [a] + [line] + [b] + [c];
    assert lines == [a, line, b, c];
    assert Kept(DeleteCount, lines, 4) == Some([]) && Kept(DeleteCount, lines, 3).Some? && Kept(DeleteCount, lines, 1).Some?;
    NothingToDelete(DeleteCount, [c], 0);
    assert [c][0..] == [c] && [a] + [c] == [a, c];
    DeletesBlockOfText([a], line, 1, [b], [c]);
  }

  lemma SampleLine()
    ensures DeleteCount("// +cluster-scope:delete=1") == Some(1) && '\n' !in "// +cluster-scope:delete=1"
  {
    MarkerHasNoBreak();
    assert Print(1) == "1";
    SampleSpelled();
    FirstWithin("// ", '+', Print(1));
    CountedAnywhere("// ", 1);
  }

  lemma SampleSpelled()
    ensures "// +cluster-scope:delete=1" == "// " + ("+cluster-scope:delete=" + "1")
  {}

  /** The marker begins with a plus sign, so it cannot begin in a text without one. */
  lemma FirstWithin(pre: string, c: char, rest: string)
    requires c == '+' && c !in pre
    ensures FirstBehind(pre, "+cluster-scope:delete=", rest)
  {
    var t := pre + ("+cluster-scope:delete=" + rest);
    forall p | 0 <= p < |pre| ensures !("+cluster-scope:delete=" <= t[p..]) {
      assert t[p..][0] == pre[p];
    }
  }

  lemma Unannotated(s: string)
    requires '+' !in s
    ensures DeleteCount(s).None?
  {
    MarkerNeeded(s, MARKER);
  }

  lemma {:induction false} MarkerNeeded(s: string, w: string)
    requires w != "" && w[0] !in s
    ensures After(s, w).None?
  {
    if s != "" { MarkerNeeded(s[1..], w); }
  }

  /** A line whose count leaves no room for the index. */
  lemma LargestCountPanics(n: nat)
    requires n == MAX_INT
    ensures Kept(DeleteCount, Split(MARKER + Print(n), '\n'), 0).None?
  {
    CountedLine(n);
    SplitFree(MARKER + Print(n), '\n');
  }

  const GLUED := "xpv2.ManagedResourceSpe" + "m.crossplane.io"

  /** A text that two orders of the map turn into different ones. */
  lemma OrderShows() returns (o1: seq<Rule>, o2: seq<Rule>)
    ensures Arranges(o1, All()) && Arranges(o2, All()) && Run(o1, GLUED) != Run(o2, GLUED)
  {
    Spelled(GroupSuffix);
    Spelled(ManagedSpec);
    assert Front("xpv2.ManagedResourceSpec") == "xpv2.ManagedResourceSpe";
    assert GLUED == StartWord(Of(GroupSuffix), Of(ManagedSpec));
    assert GLUED <= GLUED[0..];
    ContainsAt(GLUED, GLUED, 0);
    assert Critical(GLUED);
    ReplacementOrderIrrelevantIff(GLUED);
    o1, o2 :| Arranges(o1, All()) && Arranges(o2, All()) && Run(o1, GLUED) != Run(o2, GLUED);
  }
}
