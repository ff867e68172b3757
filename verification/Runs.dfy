/** Whole runs of one controller over any number of custom resources: each step
    is one Observe and at most one write, or something the users do. */
module Runs {
  import opened Wrappers
  import opened Controller

  /** What the API server keeps of a forProvider block when it is written back. */
  type Persist<!P> = P -> P

  /** writes records the key of every declaration and deletion that was sent. */
  datatype World<Id, P, K, I, O> = World(
    crs: map<Id, CrState<P, O>>, objects: map<K, I>, writes: seq<K>)

  datatype Step<Id, P, !S, !I, O> =
    | Reconcile(id: Id, server: Server<S, I>)
    | Delete(id: Id, server: Server<S, I>)
    | Edit(id: Id, spec: P)
    | Submit(id: Id, cr: CrState<P, O>)

  // ------------------------------------------------------------ one step

  /** The stored resource after an observation: late-initialised fields are
      written back, and are lost when the observation failed. */
  function AfterObserve<P(==), O>(persist: Persist<P>, before: CrState<P, O>, after: CrState<P, O>, r: Result<Observation, Failure>): CrState<P, O> {
    if r.Ok? && r.value.lateInitialized then after.(forProvider := persist(after.forProvider))
    else after.(forProvider := before.forProvider)
  }

  function Reconciled<Id(==), P(==), K(==), I, S, O>(kind: Kind<P, K, I, S, O>, persist: Persist<P>, w: World<Id, P, K, I, O>, id: Id, server: Server<S, I>)
    : World<Id, P, K, I, O>
    requires id in w.crs
  {
    var cr := w.crs[id];
    var (after, r) := ObserveOf(kind, cr, w.objects, server.reachable);
    var stored := AfterObserve(persist, cr, after, r);
    if r.Err? then w.(crs := w.crs[id := stored])
    else if !r.value.found then
      var (created, objects, _) := CreateOf(kind, stored, w.objects, server);
      World(w.crs[id := created], objects, Logged(w.writes, kind, stored))
    else if !r.value.upToDate then
      var (objects, _) := UpdateOf(kind, stored, w.objects, server);
      World(w.crs[id := stored], objects, Logged(w.writes, kind, stored))
    else w.(crs := w.crs[id := stored])
  }

  /** A declaration is sent unless its settings could not be formed. */
  function Logged<P, K, I, S, O>(writes: seq<K>, kind: Kind<P, K, I, S, O>, cr: CrState<P, O>): seq<K> {
    if kind.settings(cr.forProvider).Ok? then writes + [KeyOf(kind, cr)] else writes
  }

  /** Deletion observes first; an absent object, or a successful deletion,
      retires the resource. */
  function Deleted<Id(==), P(==), K(==), I, S, O>(kind: Kind<P, K, I, S, O>, w: World<Id, P, K, I, O>, id: Id, server: Server<S, I>)
    : World<Id, P, K, I, O>
    requires id in w.crs
  {
    var cr := w.crs[id];
    var (after, r) := ObserveOf(kind, cr, w.objects, server.reachable);
    if r.Err? then w
    else if !r.value.found then w.(crs := w.crs - {id})
    else
      var (objects, d) := DeleteOf(kind, cr, w.objects, server);
      World(if d.Ok? then w.crs - {id} else w.crs, objects, w.writes + [KeyOf(kind, cr)])
  }

  /** What deletion does: the resource goes when its object is absent, or is
      its own and the broker removes it; nothing but that object goes. */
  lemma DeletionIs<Id, P(!new), K, I, S, O>(kind: Kind<P, K, I, S, O>, w: World<Id, P, K, I, O>, id: Id, server: Server<S, I>)
    requires id in w.crs
    ensures var cr, key, w' := w.crs[id], KeyOf(kind, w.crs[id]), Deleted(kind, w, id, server);
      var own := key in w.objects && IsCrossplaneManaged(cr.annotations)
                 && kind.isUpToDate(kind.lateInitialize(cr.forProvider, w.objects[key]), w.objects[key]).Ok?;
      && w'.crs == (if server.reachable && (key !in w.objects || (own && server.delete)) then w.crs - {id} else w.crs)
      && w'.objects == (if server.reachable && own && server.delete then w.objects - {key} else w.objects)
  {}

  /** Users may change anything in the specification, but cannot mark a resource as managed. */
  predicate Possible<Id(==), P, K, I, S, O>(w: World<Id, P, K, I, O>, step: Step<Id, P, S, I, O>) {
    match step
    case Reconcile(id, _) => id in w.crs
    case Delete(id, _) => id in w.crs
    case Edit(id, _) => id in w.crs
    case Submit(id, cr) => id !in w.crs && !IsCrossplaneManaged(cr.annotations)
  }

  /** With fixed keys, edits leave the key alone. */
  predicate Legal<Id(==), P(==), K(==), I, S, O>(kind: Kind<P, K, I, S, O>, w: World<Id, P, K, I, O>, step: Step<Id, P, S, I, O>) {
    && Possible(w, step)
    && (step.Edit? ==> kind.keyOf(w.crs[step.id].name, step.spec) == KeyOf(kind, w.crs[step.id]))
  }

  function Next<Id(==), P(==), K(==), I, S, O>(kind: Kind<P, K, I, S, O>, persist: Persist<P>, w: World<Id, P, K, I, O>, step: Step<Id, P, S, I, O>)
    : World<Id, P, K, I, O>
    requires Possible(w, step)
  {
    match step
    case Reconcile(id, server) => Reconciled(kind, persist, w, id, server)
    case Delete(id, server) => Deleted(kind, w, id, server)
    case Edit(id, spec) => w.(crs := w.crs[id := w.crs[id].(forProvider := spec)])
    case Submit(id, cr) => w.(crs := w.crs[id := cr])
  }

  /** w' is reached from w by some legal steps. */
  ghost predicate Reaches<Id(!new), P(!new), K(!new), I(!new), S(!new), O(!new)>(
    kind: Kind<P, K, I, S, O>, persist: Persist<P>,
    w: World<Id, P, K, I, O>, steps: seq<Step<Id, P, S, I, O>>, w': World<Id, P, K, I, O>)
    decreases |steps|
  {
    if steps == [] then w' == w
    else Legal(kind, w, steps[0]) && Reaches(kind, persist, Next(kind, persist, w, steps[0]), steps[1..], w')
  }

  // ------------------------------------------------- exclusive ownership

  /** Neither late initialisation nor persistence moves the key. */
  ghost predicate KeyStable<P(!new), K, I(!new), S, O>(kind: Kind<P, K, I, S, O>, persist: Persist<P>) {
    && (forall name, p, i :: kind.keyOf(name, kind.lateInitialize(p, i)) == kind.keyOf(name, p))
    && (forall name, p :: kind.keyOf(name, persist(p)) == kind.keyOf(name, p))
  }

  predicate Owns<Id, P, K(==), I, S, O>(kind: Kind<P, K, I, S, O>, w: World<Id, P, K, I, O>, id: Id, key: K) {
    id in w.crs && IsCrossplaneManaged(w.crs[id].annotations) && KeyOf(kind, w.crs[id]) == key
  }

  /** foreign holds the objects that belong to nobody. */
  ghost predicate Exclusive<Id(!new), P, K(!new), I, S, O>(kind: Kind<P, K, I, S, O>, w: World<Id, P, K, I, O>, foreign: map<K, I>) {
    && (forall id, key | Owns(kind, w, id, key) :: key in w.objects && key !in foreign)
    && (forall id, id', key | Owns(kind, w, id, key) && Owns(kind, w, id', key) :: id == id')
    && (forall k | k in foreign :: k in w.objects && w.objects[k] == foreign[k])
    && (forall k | k in w.writes :: k !in foreign)
  }

  lemma ReconcileKeeps<Id(!new), P(!new), K(!new), I(!new), S, O>(
    kind: Kind<P, K, I, S, O>, persist: Persist<P>, w: World<Id, P, K, I, O>, foreign: map<K, I>, id: Id, server: Server<S, I>)
    requires KeyStable(kind, persist) && Exclusive(kind, w, foreign) && id in w.crs
    ensures Exclusive(kind, Reconciled(kind, persist, w, id, server), foreign)
  {
    var cr := w.crs[id];
    var key := KeyOf(kind, cr);
    var w' := Reconciled(kind, persist, w, id, server);
    assert KeyOf(kind, w'.crs[id]) == key;
    if IsCrossplaneManaged(cr.annotations) {
      assert Owns(kind, w, id, key);
    }
    forall j, k | Owns(kind, w', j, k) ensures k in w'.objects && k !in foreign {
      if j != id { assert Owns(kind, w, j, k); }
    }
    forall j, j', k | Owns(kind, w', j, k) && Owns(kind, w', j', k) ensures j == j' {
      if j != id { assert Owns(kind, w, j, k); }
      if j' != id { assert Owns(kind, w, j', k); }
    }
  }

  lemma DeleteKeeps<Id(!new), P(!new), K(!new), I(!new), S, O>(
    kind: Kind<P, K, I, S, O>, w: World<Id, P, K, I, O>, foreign: map<K, I>, id: Id, server: Server<S, I>)
    requires Exclusive(kind, w, foreign) && id in w.crs
    ensures Exclusive(kind, Deleted(kind, w, id, server), foreign)
  {
    var cr := w.crs[id];
    var key := KeyOf(kind, cr);
    var w' := Deleted(kind, w, id, server);
    if IsCrossplaneManaged(cr.annotations) {
      assert Owns(kind, w, id, key);
    }
    forall j, k | Owns(kind, w', j, k) ensures k in w'.objects && k !in foreign {
      assert Owns(kind, w, j, k);
    }
    forall j, j', k | Owns(kind, w', j, k) && Owns(kind, w', j', k) ensures j == j' {
      assert Owns(kind, w, j, k) && Owns(kind, w, j', k);
    }
  }

  lemma NextKeeps<Id(!new), P(!new), K(!new), I(!new), S, O>(
    kind: Kind<P, K, I, S, O>, persist: Persist<P>, w: World<Id, P, K, I, O>, foreign: map<K, I>, step: Step<Id, P, S, I, O>)
    requires KeyStable(kind, persist) && Exclusive(kind, w, foreign) && Legal(kind, w, step)
    ensures Exclusive(kind, Next(kind, persist, w, step), foreign)
  {
    match step
    case Reconcile(id, server) => ReconcileKeeps(kind, persist, w, foreign, id, server);
    case Delete(id, server) => DeleteKeeps(kind, w, foreign, id, server);
    case Edit(_, _) =>
      var w' := Next(kind, persist, w, step);
      assert forall j, k :: Owns(kind, w', j, k) <==> Owns(kind, w, j, k);
    case Submit(_, _) =>
      var w' := Next(kind, persist, w, step);
      assert forall j, k :: Owns(kind, w', j, k) <==> Owns(kind, w, j, k);
  }

  /** Every reachable state: what a managed resource owns exists, is owned by
      it alone, and nothing foreign has been written, deleted or changed. */
  lemma {:induction false} ExclusiveOwnership<Id(!new), P(!new), K(!new), I(!new), S(!new), O(!new)>(
    kind: Kind<P, K, I, S, O>, persist: Persist<P>,
    w: World<Id, P, K, I, O>, foreign: map<K, I>, steps: seq<Step<Id, P, S, I, O>>, w': World<Id, P, K, I, O>)
    requires KeyStable(kind, persist) && Exclusive(kind, w, foreign)
    requires Reaches(kind, persist, w, steps, w')
    ensures Exclusive(kind, w', foreign)
    decreases |steps|
  {
    if steps != [] {
      NextKeeps(kind, persist, w, foreign, steps[0]);
      ExclusiveOwnership(kind, persist, Next(kind, persist, w, steps[0]), foreign, steps[1..], w');
    }
  }

  /** Starting without managed resources, everything on the broker is foreign. */
  lemma FreshStart<Id(!new), P(!new), K(!new), I(!new), S, O>(kind: Kind<P, K, I, S, O>, w: World<Id, P, K, I, O>)
    requires w.writes == [] && forall id | id in w.crs :: !IsCrossplaneManaged(w.crs[id].annotations)
    ensures Exclusive(kind, w, w.objects)
  {}

  // ----------------------------------------------- edits that move the key

  ghost predicate Takes<Id(!new), P, K(!new), I, S, O>(kind: Kind<P, K, I, S, O>, w: World<Id, P, K, I, O>, foreign: map<K, I>, id: Id, spec: P)
    requires id in w.crs
  {
    var key := kind.keyOf(w.crs[id].name, spec);
    && IsCrossplaneManaged(w.crs[id].annotations) && key != KeyOf(kind, w.crs[id])
    && (key !in w.objects || key in foreign || exists other :: Owns(kind, w, other, key))
  }

  /** An edit keeps ownership exclusive exactly when it does not point a managed
      resource at a key that is foreign, owned or not there. */
  lemma EditKeepsIff<Id(!new), P(!new), K(!new), I(!new), S, O>(
    kind: Kind<P, K, I, S, O>, w: World<Id, P, K, I, O>, foreign: map<K, I>, id: Id, spec: P)
    requires Exclusive(kind, w, foreign) && id in w.crs
    ensures Exclusive(kind, w.(crs := w.crs[id := w.crs[id].(forProvider := spec)]), foreign) <==> !Takes(kind, w, foreign, id, spec)
  {
    var w' := w.(crs := w.crs[id := w.crs[id].(forProvider := spec)]);
    var key := kind.keyOf(w.crs[id].name, spec);
    forall j, k | j != id ensures Owns(kind, w', j, k) <==> Owns(kind, w, j, k) {}
    assert IsCrossplaneManaged(w.crs[id].annotations) <==> Owns(kind, w', id, key);
    assert forall k :: Owns(kind, w', id, k) ==> k == key;
    assert IsCrossplaneManaged(w.crs[id].annotations) ==> Owns(kind, w, id, KeyOf(kind, w.crs[id]));
    assert forall k :: Owns(kind, w, id, k) ==> k == KeyOf(kind, w.crs[id]);
  }

  ghost predicate PossibleRun<Id(!new), P(!new), K(!new), I(!new), S(!new), O(!new)>(
    kind: Kind<P, K, I, S, O>, persist: Persist<P>, w: World<Id, P, K, I, O>, steps: seq<Step<Id, P, S, I, O>>)
    decreases |steps|
  {
    steps != [] ==> Possible(w, steps[0]) && PossibleRun(kind, persist, Next(kind, persist, w, steps[0]), steps[1..])
  }

  /** Ownership is exclusive in every state along the run. */
  ghost predicate AlwaysExclusive<Id(!new), P(!new), K(!new), I(!new), S(!new), O(!new)>(
    kind: Kind<P, K, I, S, O>, persist: Persist<P>, w: World<Id, P, K, I, O>, foreign: map<K, I>, steps: seq<Step<Id, P, S, I, O>>)
    requires PossibleRun(kind, persist, w, steps)
    decreases |steps|
  {
    && Exclusive(kind, w, foreign)
    && (steps != [] ==> AlwaysExclusive(kind, persist, Next(kind, persist, w, steps[0]), foreign, steps[1..]))
  }

  /** Some edit of the run points a managed resource at a key it may not have. */
  ghost predicate SomeEditTakes<Id(!new), P(!new), K(!new), I(!new), S(!new), O(!new)>(
    kind: Kind<P, K, I, S, O>, persist: Persist<P>, w: World<Id, P, K, I, O>, foreign: map<K, I>, steps: seq<Step<Id, P, S, I, O>>)
    requires PossibleRun(kind, persist, w, steps)
    decreases |steps|
  {
    steps != [] &&
      ((steps[0].Edit? && Takes(kind, w, foreign, steps[0].id, steps[0].spec))
       || SomeEditTakes(kind, persist, Next(kind, persist, w, steps[0]), foreign, steps[1..]))
  }

  /** With arbitrary edits, ownership stays exclusive throughout a run exactly
      when no edit takes a key. */
  lemma {:induction false} AlwaysExclusiveIff<Id(!new), P(!new), K(!new), I(!new), S(!new), O(!new)>(
    kind: Kind<P, K, I, S, O>, persist: Persist<P>, w: World<Id, P, K, I, O>, foreign: map<K, I>, steps: seq<Step<Id, P, S, I, O>>)
    requires KeyStable(kind, persist) && Exclusive(kind, w, foreign) && PossibleRun(kind, persist, w, steps)
    ensures AlwaysExclusive(kind, persist, w, foreign, steps) <==> !SomeEditTakes(kind, persist, w, foreign, steps)
    decreases |steps|
  {
    if steps != [] {
      var step := steps[0];
      var w' := Next(kind, persist, w, step);
      if step.Edit? {
        EditKeepsIff(kind, w, foreign, step.id, step.spec);
      } else {
        NextKeeps(kind, persist, w, foreign, step);
      }
      if Exclusive(kind, w', foreign) {
        AlwaysExclusiveIff(kind, persist, w', foreign, steps[1..]);
      }
    }
  }
}
