/** The shape that the queue, exchange, vhost, user and permissions controllers
    share: Observe, Create, Update and Delete over a custom resource and the
    broker. What differs between them is collected in a Kind. */
module Controller {
  import opened Wrappers

  // ------------------------------------------------------ ownership marker

  const EXTERNAL_NAME := "crossplane.io/external-name"
  const MANAGED := "rabbitmq.crossplane.io/managed"

  type Annotations = map<string, string>

  function SetCrossplaneManaged(a: Annotations, externalName: string): Annotations {
    a[EXTERNAL_NAME := externalName][MANAGED := "true"]
  }

  predicate IsCrossplaneManaged(a: Annotations) {
    MANAGED in a && a[MANAGED] == "true"
  }

  lemma MarkedIsManaged(a: Annotations, externalName: string)
    ensures var b := SetCrossplaneManaged(a, externalName);
      && IsCrossplaneManaged(b) && b[EXTERNAL_NAME] == externalName
      && forall k | k in a && k != EXTERNAL_NAME && k != MANAGED :: k in b && b[k] == a[k]
  {}

  /** The marker alone decides: without it, or with any value but "true", a
      resource is not managed, and no other annotation makes a difference. */
  lemma MarkerDecides(a: Annotations, k: string, v: string)
    ensures "rabbitmq.crossplane.io/managed" !in a ==> !IsCrossplaneManaged(a)
    ensures k == "rabbitmq.crossplane.io/managed" ==>
      (IsCrossplaneManaged(a[k := v]) <==> v == "true") && !IsCrossplaneManaged(a - {k})
    ensures k != "rabbitmq.crossplane.io/managed" ==>
      && (IsCrossplaneManaged(a[k := v]) <==> IsCrossplaneManaged(a))
      && (IsCrossplaneManaged(a - {k}) <==> IsCrossplaneManaged(a))
  {}

  /** No marker, or one that does not say "true". */
  predicate Unmarked(a: Annotations) {
    "rabbitmq.crossplane.io/managed" in a ==> a["rabbitmq.crossplane.io/managed"] != "true"
  }

  lemma UnmarkedIff(a: Annotations)
    ensures Unmarked(a) <==> !IsCrossplaneManaged(a)
  {}

  // ------------------------------------------------------------- vocabulary

  datatype Failure =
    | GetFailed | CreateFailed | UpdateFailed | DeleteFailed
    | NotCrossplaneManaged | PasswordUnresolved | NilSettings

  datatype Observation = Observation(found: bool, upToDate: bool, lateInitialized: bool)

  /** P is the forProvider block, K identifies an object on the broker, I is
      what the broker answers, S what is declared to it, O the status block. */
  datatype Kind<!P, !K, !I, !S, !O> = Kind(
    keyOf: (string, P) -> K,
    externalName: (string, P) -> string,
    lateInitialize: (P, I) -> P,
    isUpToDate: (P, I) -> Result<bool, Failure>,
    settings: P -> Result<S, Failure>,
    observe: I -> O)

  /** How the broker will answer: whether reads succeed, what it stores for a
      declaration (None when it refuses), whether a deletion succeeds. */
  datatype Server<!S, !I> = Server(reachable: bool, declare: S -> Option<I>, delete: bool)

  datatype CrState<P, O> = CrState(
    name: string, forProvider: P, atProvider: Option<O>, available: bool, annotations: Annotations)

  /** A custom resource; the controllers update it in place. */
  class Resource<P, O> {
    const name: string
    var forProvider: P
    var atProvider: Option<O>
    var available: bool
    var annotations: Annotations

    constructor (name: string, forProvider: P, annotations: Annotations)
      ensures Snapshot() == CrState(name, forProvider, None, false, annotations)
    {
      this.name := name;
      this.forProvider := forProvider;
      this.atProvider := None;
      this.available := false;
      this.annotations := annotations;
    }

    function Snapshot(): CrState<P, O>
      reads this
    {
      CrState(name, forProvider, atProvider, available, annotations)
    }
  }

  class Broker<K(==), I> {
    var objects: map<K, I>

    constructor (objects: map<K, I>)
      ensures this.objects == objects
    {
      this.objects := objects;
    }
  }

  // ------------------------------------------- the operations, specified

  function KeyOf<P, K, I, S, O>(kind: Kind<P, K, I, S, O>, cr: CrState<P, O>): K {
    kind.keyOf(cr.name, cr.forProvider)
  }

  function Observed<P(==), K, I, S, O>(kind: Kind<P, K, I, S, O>, cr: CrState<P, O>, info: I): CrState<P, O> {
    cr.(forProvider := kind.lateInitialize(cr.forProvider, info),
        atProvider := Some(kind.observe(info)),
        available := true)
  }

  function ObserveOf<P(==), K(==), I, S, O>(kind: Kind<P, K, I, S, O>, cr: CrState<P, O>, objects: map<K, I>, reachable: bool)
    : (CrState<P, O>, Result<Observation, Failure>)
  {
    var key := KeyOf(kind, cr);
    if !reachable then (cr, Err(GetFailed))
    else if key !in objects then (cr, Ok(Observation(false, false, false)))
    else if !IsCrossplaneManaged(cr.annotations) then (cr, Err(NotCrossplaneManaged))
    else
      var cr' := Observed(kind, cr, objects[key]);
      match kind.isUpToDate(cr'.forProvider, objects[key])
      case Err(e) => (cr', Err(e))
      case Ok(b) => (cr', Ok(Observation(true, b, cr'.forProvider != cr.forProvider)))
  }

  /** A declaration as the broker takes it: refused, or stored under the key. */
  function Declare<K, I, S>(objects: map<K, I>, key: K, s: S, server: Server<S, I>): Option<map<K, I>> {
    match server.declare(s)
    case None => None
    case Some(i) => Some(objects[key := i])
  }

  function CreateOf<P, K, I, S, O>(kind: Kind<P, K, I, S, O>, cr: CrState<P, O>, objects: map<K, I>, server: Server<S, I>)
    : (CrState<P, O>, map<K, I>, Result<(), Failure>)
  {
    match kind.settings(cr.forProvider)
    case Err(e) => (cr, objects, Err(e))
    case Ok(s) =>
      match Declare(objects, KeyOf(kind, cr), s, server)
      case None => (cr, objects, Err(CreateFailed))
      case Some(after) =>
        (cr.(annotations := SetCrossplaneManaged(cr.annotations, kind.externalName(cr.name, cr.forProvider))), after, Ok(()))
  }

  function UpdateOf<P, K, I, S, O>(kind: Kind<P, K, I, S, O>, cr: CrState<P, O>, objects: map<K, I>, server: Server<S, I>)
    : (map<K, I>, Result<(), Failure>)
  {
    match kind.settings(cr.forProvider)
    case Err(e) => (objects, Err(e))
    case Ok(s) =>
      match Declare(objects, KeyOf(kind, cr), s, server)
      case None => (objects, Err(UpdateFailed))
      case Some(after) => (after, Ok(()))
  }

  function DeleteOf<P, K(==), I, S, O>(kind: Kind<P, K, I, S, O>, cr: CrState<P, O>, objects: map<K, I>, server: Server<S, I>)
    : (map<K, I>, Result<(), Failure>)
  {
    if server.delete && KeyOf(kind, cr) in objects then (objects - {KeyOf(kind, cr)}, Ok(())) else (objects, Err(DeleteFailed))
  }

  // ------------------------------------------------ what they come down to

  /** The four operations act on the object under key and on no other, declare s
      and record the name. */
  ghost predicate ActsAt<P, K, I, S, O>(
    kind: Kind<P, K, I, S, O>, cr: CrState<P, O>, objects: map<K, I>, server: Server<S, I>,
    key: K, name: string, s: Result<S, Failure>)
  {
    var answer := if s.Ok? then server.declare(s.value) else None;
    var marked := cr.(annotations := cr.annotations["crossplane.io/external-name" := name]["rabbitmq.crossplane.io/managed" := "true"]);
    && CreateOf(kind, cr, objects, server)
       == (if s.Err? then (cr, objects, Err(s.error))
           else if answer.None? then (cr, objects, Err(CreateFailed))
           else (marked, objects[key := answer.value], Ok(())))
    && UpdateOf(kind, cr, objects, server)
       == (if s.Err? then (objects, Err(s.error))
           else if answer.None? then (objects, Err(UpdateFailed))
           else (objects[key := answer.value], Ok(())))
    && DeleteOf(kind, cr, objects, server)
       == (if server.delete && key in objects then (objects - {key}, Ok(())) else (objects, Err(DeleteFailed)))
    && ObservesAt(kind, cr, objects, server.reachable, key)
  }

  /** Only the object under key is looked at. Unless it is there and the marker
      says "true", the resource stays as it is. */
  ghost predicate ObservesAt<P, K, I, S, O>(
    kind: Kind<P, K, I, S, O>, cr: CrState<P, O>, objects: map<K, I>, reachable: bool, key: K)
  {
    var (after, r) := ObserveOf(kind, cr, objects, reachable);
    if !reachable then after == cr && r == Err(GetFailed)
    else if key !in objects then after == cr && r == Ok(Observation(false, false, false))
    else if Unmarked(cr.annotations) then after == cr && r == Err(NotCrossplaneManaged)
    else
      && after == cr.(forProvider := after.forProvider, atProvider := after.atProvider, available := true)
      && after.forProvider == kind.lateInitialize(cr.forProvider, objects[key])
      && after.atProvider == Some(kind.observe(objects[key]))
      && (r.Err? <==> kind.isUpToDate(after.forProvider, objects[key]).Err?)
      && (r.Ok? ==> r.value.found && Ok(r.value.upToDate) == kind.isUpToDate(after.forProvider, objects[key])
                    && (r.value.lateInitialized <==> after.forProvider != cr.forProvider))
  }

  lemma ActsAtKey<P, K, I, S, O>(
    kind: Kind<P, K, I, S, O>, cr: CrState<P, O>, objects: map<K, I>, server: Server<S, I>)
    ensures ActsAt(kind, cr, objects, server,
                   kind.keyOf(cr.name, cr.forProvider), kind.externalName(cr.name, cr.forProvider), kind.settings(cr.forProvider))
  {
    UnmarkedIff(cr.annotations);
  }

  /** An object that the resource has not made or imported is refused, untouched. */
  lemma UnmarkedRefused<P, K, I, S, O>(kind: Kind<P, K, I, S, O>, cr: CrState<P, O>, objects: map<K, I>)
    requires "rabbitmq.crossplane.io/managed" in cr.annotations ==> cr.annotations["rabbitmq.crossplane.io/managed"] != "true"
    requires KeyOf(kind, cr) in objects
    ensures ObserveOf(kind, cr, objects, true) == (cr, Err(NotCrossplaneManaged))
  {
    UnmarkedIff(cr.annotations);
  }

  // -------------------------------------------- the operations, in place

  method Observe<P(==), K(==), I, S, O>(kind: Kind<P, K, I, S, O>, cr: Resource<P, O>, broker: Broker<K, I>, reachable: bool)
    returns (r: Result<Observation, Failure>)
    modifies cr
    ensures (cr.Snapshot(), r) == ObserveOf(kind, old(cr.Snapshot()), broker.objects, reachable)
  {
    var name := kind.keyOf(cr.name, cr.forProvider);
    if !reachable {
      return Err(GetFailed);
    }
    if name !in broker.objects {
      return Ok(Observation(false, false, false));
    }
    var info := broker.objects[name];
    if !IsCrossplaneManaged(cr.annotations) {
      return Err(NotCrossplaneManaged);
    }
    var current := cr.forProvider;
    cr.forProvider := kind.lateInitialize(cr.forProvider, info);
    var lateInitialized := current != cr.forProvider;
    cr.atProvider := Some(kind.observe(info));
    cr.available := true;
    match kind.isUpToDate(cr.forProvider, info) {
      case Err(e) => return Err(e);
      case Ok(upToDate) => return Ok(Observation(true, upToDate, lateInitialized));
    }
  }

  method Create<P(==), K(==), I, S, O>(kind: Kind<P, K, I, S, O>, cr: Resource<P, O>, broker: Broker<K, I>, server: Server<S, I>)
    returns (r: Result<(), Failure>)
    modifies cr, broker
    ensures (cr.Snapshot(), broker.objects, r) == CreateOf(kind, old(cr.Snapshot()), old(broker.objects), server)
  {
    var settings := kind.settings(cr.forProvider);
    if settings.Err? {
      return Err(settings.error);
    }
    var answer := server.declare(settings.value);
    if answer.None? {
      return Err(CreateFailed);
    }
    broker.objects := broker.objects[kind.keyOf(cr.name, cr.forProvider) := answer.value];
    cr.annotations := SetCrossplaneManaged(cr.annotations, kind.externalName(cr.name, cr.forProvider));
    return Ok(());
  }

  method Update<P(==), K(==), I, S, O>(kind: Kind<P, K, I, S, O>, cr: Resource<P, O>, broker: Broker<K, I>, server: Server<S, I>)
    returns (r: Result<(), Failure>)
    modifies broker
    ensures (broker.objects, r) == UpdateOf(kind, cr.Snapshot(), old(broker.objects), server)
  {
    var settings := kind.settings(cr.forProvider);
    if settings.Err? {
      return Err(settings.error);
    }
    var answer := server.declare(settings.value);
    if answer.None? {
      return Err(UpdateFailed);
    }
    broker.objects := broker.objects[kind.keyOf(cr.name, cr.forProvider) := answer.value];
    return Ok(());
  }

  method Delete<P(==), K(==), I, S, O>(kind: Kind<P, K, I, S, O>, cr: Resource<P, O>, broker: Broker<K, I>, server: Server<S, I>)
    returns (r: Result<(), Failure>)
    modifies broker
    ensures (broker.objects, r) == DeleteOf(kind, cr.Snapshot(), old(broker.objects), server)
  {
    var key := kind.keyOf(cr.name, cr.forProvider);
    if !server.delete || key !in broker.objects {
      return Err(DeleteFailed);
    }
    broker.objects := broker.objects - {key};
    return Ok(());
  }
}
