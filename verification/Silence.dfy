/** Convergence: after a successful write, reconciles of an unchanged broker
    send nothing more, or, for a specification the broker cannot echo, never stop. */
module Silence {
  import opened Wrappers
  import opened Controller
  import opened Runs

  /** Observing p against the answer i reports up to date. */
  predicate Settled<P, K, I, S, O>(kind: Kind<P, K, I, S, O>, p: P, i: I) {
    kind.isUpToDate(kind.lateInitialize(p, i), i) == Ok(true)
  }

  /** A settled resource, once written back, is still settled. */
  ghost predicate StaysSettled<P(!new), K, I, S, O>(kind: Kind<P, K, I, S, O>, persist: Persist<P>, i: I) {
    forall p | Settled(kind, p, i) :: Settled(kind, persist(kind.lateInitialize(p, i)), i)
  }

  function ReconcileAll<Id(==), P(==), K(==), I, S, O>(kind: Kind<P, K, I, S, O>, persist: Persist<P>, w: World<Id, P, K, I, O>, id: Id, servers: seq<Server<S, I>>)
    : World<Id, P, K, I, O>
    requires id in w.crs
    decreases |servers|
  {
    if servers == [] then w
    else ReconcileAll(kind, persist, Reconciled(kind, persist, w, id, servers[0]), id, servers[1..])
  }

  /** The resource id is managed and its object on the broker is i. */
  ghost predicate Holds<Id, P, K, I, S, O>(kind: Kind<P, K, I, S, O>, w: World<Id, P, K, I, O>, id: Id, i: I) {
    && id in w.crs
    && IsCrossplaneManaged(w.crs[id].annotations)
    && KeyOf(kind, w.crs[id]) in w.objects
    && w.objects[KeyOf(kind, w.crs[id])] == i
  }

  /** Nothing is sent, however often and with whatever answers in store. */
  lemma {:induction false} SilentForever<Id, P(!new), K, I(!new), S, O>(
    kind: Kind<P, K, I, S, O>, persist: Persist<P>, w: World<Id, P, K, I, O>, id: Id, i: I, servers: seq<Server<S, I>>)
    requires KeyStable(kind, persist) && StaysSettled(kind, persist, i)
    requires Holds(kind, w, id, i) && Settled(kind, w.crs[id].forProvider, i)
    ensures var w' := ReconcileAll(kind, persist, w, id, servers);
      w'.writes == w.writes && w'.objects == w.objects
    decreases |servers|
  {
    if servers != [] {
      SilentForever(kind, persist, Reconciled(kind, persist, w, id, servers[0]), id, i, servers[1..]);
    }
  }

  /** A resource without the marker, whatever its external name says, never
      touches an object that is there: not by reconciling, however often, nor by
      being deleted. */
  lemma {:induction false} UnmarkedIdle<Id, P(!new), K, I(!new), S, O>(
    kind: Kind<P, K, I, S, O>, persist: Persist<P>, w: World<Id, P, K, I, O>, id: Id, servers: seq<Server<S, I>>)
    requires id in w.crs && KeyOf(kind, w.crs[id]) in w.objects
    requires var a := w.crs[id].annotations;
      "rabbitmq.crossplane.io/managed" in a ==> a["rabbitmq.crossplane.io/managed"] != "true"
    ensures ReconcileAll(kind, persist, w, id, servers) == w
    ensures forall server :: Deleted(kind, w, id, server) == w
    decreases |servers|
  {
    UnmarkedIff(w.crs[id].annotations);
    assert w.crs[id := w.crs[id]] == w.crs;
    if servers != [] {
      assert Reconciled(kind, persist, w, id, servers[0]) == w;
      UnmarkedIdle(kind, persist, w, id, servers[1..]);
    }
  }

  /** What the broker may store: p says which fields were set, s what was declared. */
  type Stores<!P, !S, !I> = (P, S, I) -> bool

  ghost predicate Honest<P, S, I>(stores: Stores<P, S, I>, p: P, s: S, server: Server<S, I>) {
    server.declare(s).Some? ==> stores(p, s, server.declare(s).value)
  }

  /** What is stored for p settles p, provided p is good. */
  ghost predicate Settles<P(!new), K, I(!new), S(!new), O>(kind: Kind<P, K, I, S, O>, stores: Stores<P, S, I>, good: P -> bool) {
    forall p, s, i | good(p) && kind.settings(p) == Ok(s) && stores(p, s, i) :: Settled(kind, p, i)
  }

  /** The specification a reconcile would declare. */
  function Declared<Id(==), P(==), K(==), I, S, O>(kind: Kind<P, K, I, S, O>, persist: Persist<P>, w: World<Id, P, K, I, O>, id: Id): P
    requires id in w.crs
  {
    var cr := w.crs[id];
    var (after, r) := ObserveOf(kind, cr, w.objects, true);
    AfterObserve(persist, cr, after, r).forProvider
  }

  /** The reconcile sent a declaration and the broker stored it. */
  predicate Wrote<Id(==), P(==), K(==), I, S, O>(kind: Kind<P, K, I, S, O>, persist: Persist<P>, w: World<Id, P, K, I, O>, id: Id, server: Server<S, I>)
    requires id in w.crs
  {
    && Reconciled(kind, persist, w, id, server).writes != w.writes
    && kind.settings(Declared(kind, persist, w, id)).Ok?
    && server.declare(kind.settings(Declared(kind, persist, w, id)).value).Some?
  }

  lemma WriteSettles<Id, P(!new), K, I(!new), S(!new), O>(
    kind: Kind<P, K, I, S, O>, persist: Persist<P>, stores: Stores<P, S, I>, good: P -> bool,
    w: World<Id, P, K, I, O>, id: Id, server: Server<S, I>)
    returns (i: I)
    requires KeyStable(kind, persist) && Settles(kind, stores, good)
    requires id in w.crs && Wrote(kind, persist, w, id, server)
    requires var p := Declared(kind, persist, w, id);
      good(p) && Honest(stores, p, kind.settings(p).value, server)
    ensures var w' := Reconciled(kind, persist, w, id, server);
      Holds(kind, w', id, i) && Settled(kind, w'.crs[id].forProvider, i)
  {
    var p := Declared(kind, persist, w, id);
    i := server.declare(kind.settings(p).value).value;
    assert Settled(kind, p, i);
  }

  /** Convergence: one successful Create or Update, then silence. */
  lemma Converges<Id, P(!new), K, I(!new), S(!new), O>(
    kind: Kind<P, K, I, S, O>, persist: Persist<P>, stores: Stores<P, S, I>, good: P -> bool,
    w: World<Id, P, K, I, O>, id: Id, server: Server<S, I>, servers: seq<Server<S, I>>)
    requires KeyStable(kind, persist) && Settles(kind, stores, good)
    requires forall i :: StaysSettled(kind, persist, i)
    requires id in w.crs && Wrote(kind, persist, w, id, server)
    requires var p := Declared(kind, persist, w, id);
      good(p) && Honest(stores, p, kind.settings(p).value, server)
    ensures var w1 := Reconciled(kind, persist, w, id, server);
      var w2 := ReconcileAll(kind, persist, w1, id, servers);
      w2.writes == w1.writes && w2.objects == w1.objects
  {
    var i := WriteSettles(kind, persist, stores, good, w, id, server);
    SilentForever(kind, persist, Reconciled(kind, persist, w, id, server), id, i, servers);
  }

  // ------------------------------------------------------- never settling

  /** A specification that no stored answer settles, now or after write-back. */
  ghost predicate NeverSettles<P(!new), K, I(!new), S(!new), O>(
    kind: Kind<P, K, I, S, O>, persist: Persist<P>, stores: Stores<P, S, I>, bad: P -> bool)
  {
    && (forall p | bad(p) :: kind.settings(p).Ok?)
    && (forall p, s, i | bad(p) && kind.settings(p) == Ok(s) && stores(p, s, i) ::
          kind.isUpToDate(kind.lateInitialize(p, i), i) == Ok(false))
    && (forall p, i | bad(p) :: bad(persist(kind.lateInitialize(p, i))) && bad(kind.lateInitialize(p, i)))
    && (forall p, q, s, t, i | bad(p) && q == persist(kind.lateInitialize(p, i)) && kind.settings(p) == Ok(s) && stores(p, s, i)
          && kind.settings(q) == Ok(t) :: stores(q, t, i))
  }

  /** How many of the reconciles reach the broker. */
  function Reached<S, I>(servers: seq<Server<S, I>>): nat {
    if servers == [] then 0 else (if servers[0].reachable then 1 else 0) + Reached(servers[1..])
  }

  /** The broker is honest about what is declared to it along the run, and about nothing else. */
  ghost predicate HonestRun<Id(!new), P(!new), K(!new), I(!new), S(!new), O(!new)>(
    kind: Kind<P, K, I, S, O>, persist: Persist<P>, stores: Stores<P, S, I>,
    w: World<Id, P, K, I, O>, id: Id, servers: seq<Server<S, I>>)
    requires id in w.crs
    decreases |servers|
  {
    servers != [] ==>
      var p := Declared(kind, persist, w, id);
      && (servers[0].reachable && kind.settings(p).Ok? ==> Honest(stores, p, kind.settings(p).value, servers[0]))
      && HonestRun(kind, persist, stores, Reconciled(kind, persist, w, id, servers[0]), id, servers[1..])
  }

  /** Every later reconcile that reaches the broker declares the object again. */
  lemma {:induction false} RestlessForever<Id(!new), P(!new), K(!new), I(!new), S(!new), O(!new)>(
    kind: Kind<P, K, I, S, O>, persist: Persist<P>, stores: Stores<P, S, I>, bad: P -> bool,
    w: World<Id, P, K, I, O>, id: Id, i: I, s: S, servers: seq<Server<S, I>>)
    requires KeyStable(kind, persist) && NeverSettles(kind, persist, stores, bad)
    requires Holds(kind, w, id, i)
    requires var p := w.crs[id].forProvider; bad(p) && kind.settings(p) == Ok(s) && stores(p, s, i)
    requires HonestRun(kind, persist, stores, w, id, servers)
    ensures |ReconcileAll(kind, persist, w, id, servers).writes| == |w.writes| + Reached(servers)
    decreases |servers|
  {
    if servers != [] {
      var p, server := w.crs[id].forProvider, servers[0];
      var w' := Reconciled(kind, persist, w, id, server);
      if server.reachable {
        var late := kind.lateInitialize(p, i);
        assert kind.isUpToDate(late, i) == Ok(false);
        var q := if late != p then persist(late) else p;
        assert w'.crs[id].forProvider == q && bad(q);
        assert Declared(kind, persist, w, id) == q;
        var t := kind.settings(q).value;
        assert stores(q, t, i);
        var j := match server.declare(t) case Some(a) => a case None => i;
        assert stores(q, t, j);
        RestlessForever(kind, persist, stores, bad, w', id, j, t, servers[1..]);
      } else {
        RestlessForever(kind, persist, stores, bad, w', id, i, s, servers[1..]);
      }
    }
  }
}
