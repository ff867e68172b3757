/** Any number of binding resources against one broker: who gets to declare,
    and how many resources between the same endpoints become managed. */
module Neighbours {
  import opened Wrappers
  import opened BindingId
  import opened Controller
  import opened Bindings

  /** sent records which resources sent a declaration. */
  datatype Neighbourhood<Id> = Neighbourhood(crs: map<Id, Cr>, bindings: seq<BindingInfo>, sent: seq<Id>)

  /** Added stands for bindings that others make; nobody else removes any. */
  datatype NeighbourStep<Id> =
    | Reconcile(id: Id, server: BindingServer)
    | Delete(id: Id, server: BindingServer)
    | Edit(id: Id, p: BindingParameters)
    | Submit(id: Id, cr: Cr)
    | Added(more: seq<BindingInfo>)

  predicate Legal<Id>(w: Neighbourhood<Id>, step: NeighbourStep<Id>) {
    match step
    case Reconcile(id, _) => id in w.crs
    case Delete(id, _) => id in w.crs
    case Edit(id, p) => id in w.crs && Admitted(w.crs[id].forProvider, p)
    case Submit(id, cr) => id !in w.crs && !IsCrossplaneManaged(cr.annotations)
    case Added(_) => true
  }

  function Reconciled<Id>(w: Neighbourhood<Id>, id: Id, server: BindingServer): Neighbourhood<Id>
    requires id in w.crs
  {
    var (cr, r) := Bindings.ObserveOf(w.crs[id], w.bindings, server.reachable);
    if r.Ok? && !r.value.found then
      var (created, bindings, _) := Bindings.CreateOf(cr, w.bindings, server);
      Neighbourhood(w.crs[id := created], bindings, w.sent + [id])
    else w.(crs := w.crs[id := cr])
  }

  /** Deletion observes first; a binding that is not found, or is deleted, retires the resource. */
  function Deleted<Id>(w: Neighbourhood<Id>, id: Id, server: BindingServer): Neighbourhood<Id>
    requires id in w.crs
  {
    var (cr, r) := Bindings.ObserveOf(w.crs[id], w.bindings, server.reachable);
    if r.Err? then w.(crs := w.crs[id := cr])
    else if !r.value.found then w.(crs := w.crs - {id})
    else
      var (bindings, d) := Bindings.DeleteOf(cr, w.bindings, server);
      w.(crs := if d.Ok? then w.crs - {id} else w.crs[id := cr], bindings := bindings)
  }

  function Next<Id>(w: Neighbourhood<Id>, step: NeighbourStep<Id>): Neighbourhood<Id>
    requires Legal(w, step)
  {
    match step
    case Reconcile(id, server) => Reconciled(w, id, server)
    case Delete(id, server) => Deleted(w, id, server)
    case Edit(id, p) => w.(crs := w.crs[id := w.crs[id].(forProvider := p)])
    case Submit(id, cr) => w.(crs := w.crs[id := cr])
    case Added(more) => w.(bindings := w.bindings + more)
  }

  ghost predicate Reaches<Id(!new)>(w: Neighbourhood<Id>, steps: seq<NeighbourStep<Id>>, w': Neighbourhood<Id>)
    decreases |steps|
  {
    if steps == [] then w' == w
    else Legal(w, steps[0]) && Reaches(Next(w, steps[0]), steps[1..], w')
  }

  // ------------------------------------------- at most one gets its binding

  predicate Managed<Id>(w: Neighbourhood<Id>, id: Id) {
    id in w.crs && IsCrossplaneManaged(w.crs[id].annotations)
  }

  predicate Joins(p: BindingParameters, b: BindingInfo) {
    b.vhost == p.vhost && Between(p, b)
  }

  predicate Occupied(p: BindingParameters, bindings: seq<BindingInfo>) {
    exists b :: b in bindings && Joins(p, b)
  }

  /** Between the endpoints of a managed resource there is a binding, and there
      is no other managed resource. */
  ghost predicate OneEach<Id(!new)>(w: Neighbourhood<Id>) {
    && (forall id | Managed(w, id) :: Occupied(w.crs[id].forProvider, w.bindings))
    && (forall id, other | Managed(w, id) && Managed(w, other) && SameEndpoints(w.crs[id].forProvider, w.crs[other].forProvider) :: id == other)
  }

  lemma OccupiedListing(p: BindingParameters, bindings: seq<BindingInfo>)
    requires Occupied(p, bindings)
    ensures Listing(p, bindings) != []
  {
    var b :| b in bindings && Joins(p, b);
    ListingMembers(p, bindings, b);
  }

  lemma StillOccupied(p: BindingParameters, q: BindingParameters, before: seq<BindingInfo>, after: seq<BindingInfo>)
    requires Occupied(p, before) && SameEndpoints(p, q) && forall b | b in before && Joins(p, b) :: b in after
    ensures Occupied(q, after)
  {
    var b :| b in before && Joins(p, b);
    assert b in after && Joins(q, b);
  }

  /** What a reconcile does: a resource is declared when it meets nothing in the
      slot, and becomes managed only on an empty listing. */
  lemma ReconcileEffect(cr: Cr, bindings: seq<BindingInfo>, server: BindingServer)
    ensures var (seen, r) := Bindings.ObserveOf(cr, bindings, server.reachable);
      && seen.forProvider == cr.forProvider && seen.annotations == cr.annotations
      && (!IsCrossplaneManaged(cr.annotations) ==>
            (r.Ok? && !r.value.found <==> server.reachable && Listing(cr.forProvider, bindings) == []))
    ensures var (created, after, _) := Bindings.CreateOf(cr, bindings, server);
      && created.forProvider == cr.forProvider
      && (forall b | b in bindings :: b in after)
      && (IsCrossplaneManaged(created.annotations) && !IsCrossplaneManaged(cr.annotations) ==> Occupied(cr.forProvider, after))
  {
    assert Joins(cr.forProvider, DeclaredBinding(cr.forProvider, server));
  }

  /** The same in the neighbourhood: only id can become managed, on an empty listing. */
  lemma ReconciledIs<Id(!new)>(w: Neighbourhood<Id>, id: Id, server: BindingServer)
    requires id in w.crs
    ensures var w' := Reconciled(w, id, server);
      && w'.crs.Keys == w.crs.Keys
      && (forall j | j in w.crs :: w'.crs[j].forProvider == w.crs[j].forProvider && (j != id ==> w'.crs[j] == w.crs[j]))
      && (forall b | b in w.bindings :: b in w'.bindings)
      && (Managed(w', id) && !Managed(w, id) ==>
            Listing(w.crs[id].forProvider, w.bindings) == [] && Occupied(w.crs[id].forProvider, w'.bindings))
  {
    var (seen, r) := Bindings.ObserveOf(w.crs[id], w.bindings, server.reachable);
    ReconcileEffect(w.crs[id], w.bindings, server);
    ReconcileEffect(seen, w.bindings, server);
  }

  lemma ReconcileKeeps<Id(!new)>(w: Neighbourhood<Id>, id: Id, server: BindingServer)
    requires OneEach(w) && id in w.crs
    ensures OneEach(Reconciled(w, id, server))
  {
    var w' := Reconciled(w, id, server);
    ReconciledIs(w, id, server);
    forall j | Managed(w', j) ensures Occupied(w'.crs[j].forProvider, w'.bindings) {
      if Managed(w, j) { StillOccupied(w.crs[j].forProvider, w'.crs[j].forProvider, w.bindings, w'.bindings); }
    }
    forall j, k | Managed(w', j) && Managed(w', k) && SameEndpoints(w'.crs[j].forProvider, w'.crs[k].forProvider) ensures j == k {
      if Managed(w, j) && !Managed(w, k) {
        NewcomerAlone(w, k, j);
      } else if Managed(w, k) && !Managed(w, j) {
        NewcomerAlone(w, j, k);
      }
    }
  }

  /** Next to a managed resource the listing is not empty. */
  lemma NewcomerAlone<Id(!new)>(w: Neighbourhood<Id>, id: Id, other: Id)
    requires OneEach(w) && id in w.crs && Managed(w, other) && SameEndpoints(w.crs[id].forProvider, w.crs[other].forProvider)
    ensures Listing(w.crs[id].forProvider, w.bindings) != []
  {
    StillOccupied(w.crs[other].forProvider, w.crs[id].forProvider, w.bindings, w.bindings);
    OccupiedListing(w.crs[id].forProvider, w.bindings);
  }

  /** Deletion removes nothing but what joins the endpoints of a managed resource, and retires that one. */
  lemma DeletedIs<Id(!new)>(w: Neighbourhood<Id>, id: Id, server: BindingServer)
    requires id in w.crs
    ensures var w' := Deleted(w, id, server);
      && (forall j | Managed(w', j) :: Managed(w, j) && w'.crs[j].forProvider == w.crs[j].forProvider)
      && (w'.bindings == w.bindings
          || (Managed(w, id) && id !in w'.crs
              && forall b | b in w.bindings && !Joins(w.crs[id].forProvider, b) :: b in w'.bindings))
  {
    var (seen, _) := Bindings.ObserveOf(w.crs[id], w.bindings, server.reachable);
    ReconcileEffect(w.crs[id], w.bindings, server);
    FilterMembers(Survivors(seen.forProvider, StatusKey(seen)), w.bindings);
  }

  /** A resource goes when it may look and finds nothing, or when what it finds is removed, and that is gone then. */
  lemma DeletionIs<Id>(w: Neighbourhood<Id>, id: Id, server: BindingServer)
    requires id in w.crs
    ensures var cr, w' := w.crs[id], Deleted(w, id, server);
      var list := Listing(cr.forProvider, w.bindings);
      var found := if list == [] then None else Find(cr, list);
      && (id !in w'.crs <==> server.reachable && (list == [] || Managed(w, id)) && (found == None || server.deletes))
      && w'.crs.Keys <= w.crs.Keys && (forall j | j in w.crs && j != id :: j in w'.crs && w'.crs[j] == w.crs[j])
      && (id !in w'.crs && found.Some? ==> found.value !in w'.bindings)
  {
    var cr := w.crs[id];
    var (seen, r) := Bindings.ObserveOf(cr, w.bindings, server.reachable);
    if r.Ok? && r.value.found {
      var list := Listing(cr.forProvider, w.bindings);
      FirstMatchIs(cr.forProvider, KeySlot(StoredName(cr)).value, list);
      ListingMembers(cr.forProvider, w.bindings, Find(cr, list).value);
      FilterMembers(Survivors(seen.forProvider, StatusKey(seen)), w.bindings);
    }
  }

  lemma DeleteKeeps<Id(!new)>(w: Neighbourhood<Id>, id: Id, server: BindingServer)
    requires OneEach(w) && id in w.crs
    ensures OneEach(Deleted(w, id, server))
  {
    var w' := Deleted(w, id, server);
    DeletedIs(w, id, server);
    forall j | Managed(w', j) ensures Occupied(w'.crs[j].forProvider, w'.bindings) {
      var p := w.crs[j].forProvider;
      if w'.bindings != w.bindings {
        assert !SameEndpoints(w.crs[id].forProvider, p);
        forall b | b in w.bindings && Joins(p, b) ensures b in w'.bindings {}
        StillOccupied(p, p, w.bindings, w'.bindings);
      }
    }
  }

  lemma NextKeeps<Id(!new)>(w: Neighbourhood<Id>, step: NeighbourStep<Id>)
    requires OneEach(w) && Legal(w, step)
    ensures OneEach(Next(w, step))
  {
    match step
    case Reconcile(id, server) => ReconcileKeeps(w, id, server);
    case Delete(id, server) => DeleteKeeps(w, id, server);
    case Edit(_, _) => OthersKeep(w, step);
    case Submit(_, _) => OthersKeep(w, step);
    case Added(_) => OthersKeep(w, step);
  }

  lemma OthersKeep<Id(!new)>(w: Neighbourhood<Id>, step: NeighbourStep<Id>)
    requires OneEach(w) && Legal(w, step) && !step.Reconcile? && !step.Delete?
    ensures OneEach(Next(w, step))
  {
    var w' := Next(w, step);
    forall j | Managed(w', j)
      ensures Managed(w, j) && SameEndpoints(w.crs[j].forProvider, w'.crs[j].forProvider)
      ensures Occupied(w'.crs[j].forProvider, w'.bindings)
    {
      assert Managed(w, j);
      StillOccupied(w.crs[j].forProvider, w'.crs[j].forProvider, w.bindings, w'.bindings);
    }
  }

  /** In every reachable state at most one of the resources between the same
      endpoints is managed, as long as nobody else removes bindings. */
  lemma {:induction false} AtMostOneManaged<Id(!new)>(w: Neighbourhood<Id>, steps: seq<NeighbourStep<Id>>, w': Neighbourhood<Id>)
    requires OneEach(w) && Reaches(w, steps, w')
    ensures OneEach(w')
    decreases |steps|
  {
    if steps != [] {
      NextKeeps(w, steps[0]);
      AtMostOneManaged(Next(w, steps[0]), steps[1..], w');
    }
  }

  // ------------------------------------------------------ who may declare

  /** Some reconcile of id reaches the broker and meets an empty listing. */
  ghost predicate MeetsEmpty<Id(!new)>(w: Neighbourhood<Id>, steps: seq<NeighbourStep<Id>>, id: Id)
    decreases |steps|
  {
    steps != [] && Legal(w, steps[0]) &&
      (|| (steps[0].Reconcile? && steps[0].id == id && steps[0].server.reachable && Listing(w.crs[id].forProvider, w.bindings) == [])
       || MeetsEmpty(Next(w, steps[0]), steps[1..], id))
  }

  lemma {:induction false} SentStays<Id(!new)>(w: Neighbourhood<Id>, steps: seq<NeighbourStep<Id>>, w': Neighbourhood<Id>, id: Id)
    requires Reaches(w, steps, w') && id in w.sent
    ensures id in w'.sent
    decreases |steps|
  {
    if steps != [] { SentStays(Next(w, steps[0]), steps[1..], w', id); }
  }

  /** A step in which id neither declares nor becomes managed, unless it is a
      reconcile that meets an empty listing. */
  lemma StepOf<Id(!new)>(w: Neighbourhood<Id>, step: NeighbourStep<Id>, id: Id)
    requires Legal(w, step) && !Managed(w, id) && id !in w.sent
    ensures var meets := step.Reconcile? && step.id == id && step.server.reachable && Listing(w.crs[id].forProvider, w.bindings) == [];
      && (id in Next(w, step).sent <==> meets)
      && (!meets ==> !Managed(Next(w, step), id))
  {
    if step.Reconcile? { ReconcileEffect(w.crs[step.id], w.bindings, step.server); }
    if step.Delete? { ReconcileEffect(w.crs[step.id], w.bindings, step.server); }
  }

  /** Over any run, a resource that is not managed sends a declaration exactly
      when one of its reconciles meets an empty listing. */
  lemma {:induction false} DeclaresIff<Id(!new)>(w: Neighbourhood<Id>, steps: seq<NeighbourStep<Id>>, w': Neighbourhood<Id>, id: Id)
    requires Reaches(w, steps, w') && !Managed(w, id) && id !in w.sent
    ensures id in w'.sent <==> MeetsEmpty(w, steps, id)
    decreases |steps|
  {
    if steps != [] {
      StepOf(w, steps[0], id);
      if id in Next(w, steps[0]).sent {
        SentStays(Next(w, steps[0]), steps[1..], w', id);
      } else {
        DeclaresIff(Next(w, steps[0]), steps[1..], w', id);
      }
    }
  }

  /** While nothing is deleted, a neighbour's binding shuts a resource out for good:
      it never declares, whatever else happens. */
  lemma {:induction false} NeighbourBlocksCreate<Id(!new)>(w: Neighbourhood<Id>, steps: seq<NeighbourStep<Id>>, w': Neighbourhood<Id>, id: Id)
    requires Reaches(w, steps, w') && !Managed(w, id) && id !in w.sent
    requires id in w.crs && Occupied(w.crs[id].forProvider, w.bindings)
    requires forall step | step in steps :: !step.Delete?
    ensures id !in w'.sent && !Managed(w', id)
    decreases |steps|
  {
    if steps != [] {
      var next := Next(w, steps[0]);
      OccupiedListing(w.crs[id].forProvider, w.bindings);
      StepOf(w, steps[0], id);
      if steps[0].Reconcile? { ReconciledIs(w, steps[0].id, steps[0].server); }
      StillOccupied(w.crs[id].forProvider, next.crs[id].forProvider, w.bindings, next.bindings);
      NeighbourBlocksCreate(next, steps[1..], w', id);
    }
  }
}
