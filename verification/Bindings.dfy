/** The binding controller. A binding has no name of its own: Create stores the
    broker's properties key in the external name, and Observe searches a
    listing for the binding that carries it. */
module Bindings {
  import opened Wrappers
  import opened Arguments
  import opened CanonicalJson
  import opened Splitting
  import opened BindingId
  import opened Controller

  datatype BindingParameters = BindingParameters(
    source: string, vhost: string, destination: string, destinationType: string,
    routingKey: string, arguments: Option<Strings>)

  /** rabbithole.BindingInfo. */
  datatype BindingInfo = BindingInfo(
    source: string, vhost: string, destination: string, destinationType: string,
    routingKey: string, arguments: Typed, propertiesKey: string)

  datatype BindingObservation = BindingObservation(
    source: string, vhost: string, destination: string, destinationType: string,
    routingKey: string, propertiesKey: string, arguments: Strings)

  type Cr = CrState<BindingParameters, BindingObservation>

  // ------------------------------------------------ pure parts of the code

  function Generate(p: BindingParameters, propertiesKey: string): BindingInfo {
    BindingInfo(p.source, p.vhost, p.destination, p.destinationType, p.routingKey,
                ToTyped(p.arguments.GetOr(map[])), propertiesKey)
  }

  function StatusOf(api: BindingInfo): BindingObservation {
    BindingObservation(api.source, api.vhost, api.destination, api.destinationType, api.routingKey,
                       api.propertiesKey, ToStrings(api.arguments))
  }

  predicate IsUpToDate(p: BindingParameters, api: BindingInfo) {
    && p.source == api.source
    && p.vhost == api.vhost
    && p.destination == api.destination
    && p.destinationType == api.destinationType
    && p.routingKey == api.routingKey
    && MapsEqualJSON(p.arguments, Some(ToStrings(api.arguments)))
  }

  predicate Between(p: BindingParameters, b: BindingInfo) {
    b.source == p.source && b.destination == p.destination && b.destinationType == p.destinationType
  }

  function Filter<T>(f: T -> bool, xs: seq<T>): seq<T> {
    if xs == [] then [] else (if f(xs[0]) then [xs[0]] else []) + Filter(f, xs[1..])
  }

  function InVhost(vhost: string): BindingInfo -> bool {
    (b: BindingInfo) => b.vhost == vhost
  }

  function BetweenIn(p: BindingParameters): BindingInfo -> bool {
    (b: BindingInfo) => b.vhost == p.vhost && Between(p, b)
  }

  /** listBindings: the bindings between the two endpoints when the destination
      is a queue or an exchange, and the whole virtual host otherwise. */
  function Listing(p: BindingParameters, bindings: seq<BindingInfo>): seq<BindingInfo> {
    if p.destinationType == "queue" || p.destinationType == "exchange" then Filter(BetweenIn(p), bindings)
    else Filter(InVhost(p.vhost), bindings)
  }

  predicate Matches(p: BindingParameters, key: string, b: BindingInfo) {
    Between(p, b) && b.propertiesKey == key
  }

  function FirstMatch(p: BindingParameters, key: string, list: seq<BindingInfo>): Option<BindingInfo> {
    if list == [] then None
    else if Matches(p, key, list[0]) then Some(list[0])
    else FirstMatch(p, key, list[1..])
  }

  function StoredName(cr: Cr): string {
    if EXTERNAL_NAME in cr.annotations then cr.annotations[EXTERNAL_NAME] else ""
  }

  function Find(cr: Cr, list: seq<BindingInfo>): Option<BindingInfo> {
    match KeySlot(StoredName(cr))
    case None => None
    case Some(key) => FirstMatch(cr.forProvider, key, list)
  }

  function ExternalNameOf(p: BindingParameters, key: string): string {
    ExternalName(p.vhost, p.source, p.destinationType, p.destination, key)
  }

  // ------------------------------------------- the operations, specified

  /** What Observe makes of a listing. */
  function ObserveWith(cr: Cr, list: seq<BindingInfo>): (Cr, Result<Observation, Failure>) {
    if list == [] then (cr, Ok(Observation(false, false, false)))
    else if !IsCrossplaneManaged(cr.annotations) then (cr, Err(NotCrossplaneManaged))
    else
      match Find(cr, list)
      case None => (cr, Ok(Observation(false, false, false)))
      case Some(b) =>
        (cr.(atProvider := Some(StatusOf(b)), available := true),
         Ok(Observation(true, IsUpToDate(cr.forProvider, b), false)))
  }

  function ObserveOf(cr: Cr, bindings: seq<BindingInfo>, reachable: bool): (Cr, Result<Observation, Failure>) {
    if reachable then ObserveWith(cr, Listing(cr.forProvider, bindings)) else (cr, Err(GetFailed))
  }

  /** How the broker answers: the key it gives a binding, as a function of
      routing key and arguments, whether it accepts a declaration or a
      deletion, and the Location header it returns. */
  datatype BindingServer = BindingServer(
    reachable: bool, accepts: bool, deletes: bool, location: string, keyOf: (string, Typed) -> string)

  function DeclaredBinding(p: BindingParameters, server: BindingServer): BindingInfo {
    Generate(p, server.keyOf(p.routingKey, ToTyped(p.arguments.GetOr(map[]))))
  }

  /** Declaring a binding that is there already changes nothing. */
  function Declare(bindings: seq<BindingInfo>, b: BindingInfo): seq<BindingInfo> {
    if b in bindings then bindings else bindings + [b]
  }

  /** When the header cannot be decoded the binding has been made all the same. */
  function CreateOf(cr: Cr, bindings: seq<BindingInfo>, server: BindingServer): (Cr, seq<BindingInfo>, Result<(), Failure>) {
    if !server.accepts then (cr, bindings, Err(CreateFailed))
    else
      var after := Declare(bindings, DeclaredBinding(cr.forProvider, server));
      match KeyFromLocation(server.location)
      case None => (cr, after, Err(CreateFailed))
      case Some(key) =>
        (cr.(annotations := SetCrossplaneManaged(cr.annotations, ExternalNameOf(cr.forProvider, key))), after, Ok(()))
  }

  /** The properties key in the status; empty before the first observation. */
  function StatusKey(cr: Cr): string {
    match cr.atProvider
    case None => ""
    case Some(o) => o.propertiesKey
  }

  function Survivors(p: BindingParameters, key: string): BindingInfo -> bool {
    (b: BindingInfo) => !(b.vhost == p.vhost && Matches(p, key, b))
  }

  function DeleteOf(cr: Cr, bindings: seq<BindingInfo>, server: BindingServer): (seq<BindingInfo>, Result<(), Failure>) {
    if server.deletes then (Filter(Survivors(cr.forProvider, StatusKey(cr)), bindings), Ok(()))
    else (bindings, Err(DeleteFailed))
  }

  // -------------------------------------------- the operations, in place

  class BindingBroker {
    var bindings: seq<BindingInfo>

    constructor (bindings: seq<BindingInfo>)
      ensures this.bindings == bindings
    {
      this.bindings := bindings;
    }
  }

  method GetBinding(list: seq<BindingInfo>, cr: Cr) returns (r: Option<BindingInfo>)
    ensures r == Find(cr, list)
  {
    var id := Split(StoredName(cr), '/');
    if |id| < EXPECTED_PARTS {
      return None;
    }
    var propertiesKey := id[4];
    for i := 0 to |list|
      invariant Find(cr, list) == FirstMatch(cr.forProvider, propertiesKey, list[i..])
    {
      assert list[i..][0] == list[i] && list[i..][1..] == list[i + 1..];
      if Matches(cr.forProvider, propertiesKey, list[i]) {
        return Some(list[i]);
      }
    }
    return None;
  }

  method Observe(cr: Resource<BindingParameters, BindingObservation>, broker: BindingBroker, reachable: bool)
    returns (r: Result<Observation, Failure>)
    modifies cr
    ensures (cr.Snapshot(), r) == ObserveOf(old(cr.Snapshot()), broker.bindings, reachable)
  {
    if !reachable {
      return Err(GetFailed);
    }
    var bindings := Listing(cr.forProvider, broker.bindings);
    if |bindings| == 0 {
      return Ok(Observation(false, false, false));
    }
    if !IsCrossplaneManaged(cr.annotations) {
      return Err(NotCrossplaneManaged);
    }
    var isUpToDate, lateInitialized := false, false;
    var binding := GetBinding(bindings, cr.Snapshot());
    if binding.Some? {
      var current := cr.forProvider;
      lateInitialized := current != cr.forProvider;
      cr.atProvider := Some(StatusOf(binding.value));
      cr.available := true;
      isUpToDate := IsUpToDate(cr.forProvider, binding.value);
    }
    if binding.None? {
      return Ok(Observation(false, false, false));
    }
    return Ok(Observation(true, isUpToDate, lateInitialized));
  }

  method Create(cr: Resource<BindingParameters, BindingObservation>, broker: BindingBroker, server: BindingServer)
    returns (r: Result<(), Failure>)
    modifies cr, broker
    ensures (cr.Snapshot(), broker.bindings, r) == CreateOf(old(cr.Snapshot()), old(broker.bindings), server)
  {
    if !server.accepts {
      return Err(CreateFailed);
    }
    broker.bindings := Declare(broker.bindings, DeclaredBinding(cr.forProvider, server));
    var location := Split(server.location, '/');
    var propertiesKey := PathUnescape(location[|location| - 1]);
    if propertiesKey.None? {
      return Err(CreateFailed);
    }
    var name := ExternalNameOf(cr.forProvider, propertiesKey.value);
    cr.annotations := SetCrossplaneManaged(cr.annotations, name);
    return Ok(());
  }

  /** Bindings cannot be updated: the call always fails. */
  method Update(cr: Resource<BindingParameters, BindingObservation>, broker: BindingBroker) returns (r: Result<(), Failure>)
    ensures r == Err(UpdateFailed)
  {
    return Err(UpdateFailed);
  }

  method Delete(cr: Resource<BindingParameters, BindingObservation>, broker: BindingBroker, server: BindingServer)
    returns (r: Result<(), Failure>)
    modifies broker
    ensures (broker.bindings, r) == DeleteOf(cr.Snapshot(), old(broker.bindings), server)
  {
    if !server.deletes {
      return Err(DeleteFailed);
    }
    var propertiesKey := StatusKey(cr.Snapshot());
    broker.bindings := Filter(Survivors(cr.forProvider, propertiesKey), broker.bindings);
    return Ok(());
  }

  // ------------------------------------------------------------- searching

  lemma {:induction false} FilterMembers<T>(f: T -> bool, xs: seq<T>)
    ensures forall x :: x in Filter(f, xs) <==> x in xs && f(x)
  {
    if xs != [] {
      FilterMembers(f, xs[1..]);
      assert forall x :: x in xs <==> x == xs[0] || x in xs[1..];
    }
  }

  lemma {:induction false} FirstMatchIs(p: BindingParameters, key: string, list: seq<BindingInfo>)
    ensures var r := FirstMatch(p, key, list);
      && (r.Some? <==> exists b :: b in list && Matches(p, key, b))
      && (r.Some? ==> r.value in list && Matches(p, key, r.value))
  {
    if list != [] {
      FirstMatchIs(p, key, list[1..]);
      assert forall x :: x in list <==> x == list[0] || x in list[1..];
    }
  }

  /** A binding is listed when it is in the vhost and, if the destination is
      declared to be a queue or an exchange, between the endpoints. */
  lemma ListingMembers(p: BindingParameters, bindings: seq<BindingInfo>, b: BindingInfo)
    ensures b in Listing(p, bindings)
       <==> && b in bindings && b.vhost == p.vhost
            && (p.destinationType == "queue" || p.destinationType == "exchange" ==>
                  b.source == p.source && b.destination == p.destination && b.destinationType == p.destinationType)
  {
    FilterMembers(BetweenIn(p), bindings);
    FilterMembers(InVhost(p.vhost), bindings);
  }

  /** Endpoints and properties key identify a binding within a virtual host. */
  ghost predicate Identified(list: seq<BindingInfo>) {
    forall a, b | a in list && b in list && a.vhost == b.vhost && a.source == b.source && a.destination == b.destination
        && a.destinationType == b.destinationType && a.propertiesKey == b.propertiesKey :: a == b
  }

  /** narrow lists the bindings of full between the endpoints, in any order and
      with any repetitions. */
  ghost predicate Narrows(p: BindingParameters, narrow: seq<BindingInfo>, full: seq<BindingInfo>) {
    forall b :: b in narrow <==> b in full && Between(p, b)
  }

  /** A managed resource is observed alike on the narrow and on the full
      listing; an unmanaged one exactly when both are empty or neither is. */
  lemma NarrowAndFullAgreeIff(cr: Cr, narrow: seq<BindingInfo>, full: seq<BindingInfo>)
    requires Narrows(cr.forProvider, narrow, full) && Identified(full)
    requires forall b | b in full :: b.vhost == cr.forProvider.vhost
    ensures ObserveWith(cr, narrow) == ObserveWith(cr, full)
       <==> IsCrossplaneManaged(cr.annotations) || (narrow == [] <==> full == [])
  {
    var p := cr.forProvider;
    if narrow != [] { assert narrow[0] in full; }
    if KeySlot(StoredName(cr)).Some? {
      var key := KeySlot(StoredName(cr)).value;
      FirstMatchIs(p, key, narrow);
      FirstMatchIs(p, key, full);
      assert FirstMatch(p, key, narrow).Some? <==> FirstMatch(p, key, full).Some?;
    }
  }

  function BetweenOf(p: BindingParameters): BindingInfo -> bool {
    (b: BindingInfo) => Between(p, b)
  }

  /** When the narrow listing keeps the order, nothing need identify a binding. */
  lemma NarrowInOrderAgreesIff(cr: Cr, full: seq<BindingInfo>)
    ensures var narrow := Filter(BetweenOf(cr.forProvider), full);
      ObserveWith(cr, narrow) == ObserveWith(cr, full)
      <==> IsCrossplaneManaged(cr.annotations) || (narrow == [] <==> full == [])
  {
    var p := cr.forProvider;
    if KeySlot(StoredName(cr)).Some? {
      FirstInFiltered(p, KeySlot(StoredName(cr)).value, full);
    }
  }

  lemma {:induction false} FirstInFiltered(p: BindingParameters, key: string, list: seq<BindingInfo>)
    ensures FirstMatch(p, key, Filter(BetweenOf(p), list)) == FirstMatch(p, key, list)
  {
    if list != [] {
      FirstInFiltered(p, key, list[1..]);
      var rest := Filter(BetweenOf(p), list[1..]);
      if Between(p, list[0]) {
        assert Filter(BetweenOf(p), list) == [list[0]] + rest;
      } else {
        assert Filter(BetweenOf(p), list) == rest;
      }
    }
  }

  // ------------------------------------------------------ runs of a binding

  /** The broker's rule: the key of a binding determines, and is determined by,
      its routing key and arguments. */
  ghost predicate WellKeyed(keyOf: (string, Typed) -> string, bindings: seq<BindingInfo>) {
    && (forall b | b in bindings :: b.propertiesKey == keyOf(b.routingKey, b.arguments))
    && forall r, a, r', a' | keyOf(r, a) == keyOf(r', a') :: r == r' && a == a'
  }

  function ArgumentsOf(p: BindingParameters): Strings {
    p.arguments.GetOr(map[])
  }

  function KeyFor(keyOf: (string, Typed) -> string, p: BindingParameters): string {
    keyOf(p.routingKey, ToTyped(ArgumentsOf(p)))
  }

  /** The binding that a resource with these parameters declares. */
  function Own(keyOf: (string, Typed) -> string, p: BindingParameters): BindingInfo {
    Generate(p, KeyFor(keyOf, p))
  }

  /** The slot of the stored name holds the key that was put into it. */
  predicate Straight(keyOf: (string, Typed) -> string, p: BindingParameters) {
    KeySlot(ExternalNameOf(p, KeyFor(keyOf, p))) == Some(KeyFor(keyOf, p))
  }

  predicate SlashFreeFields(p: BindingParameters) {
    SlashFree(p.vhost) && SlashFree(p.source) && SlashFree(p.destinationType) && SlashFree(p.destination)
  }

  /** With slash-free fields it does exactly when the key has no slash; in the
      default virtual host exactly when the key is the destination. */
  lemma StraightIff(keyOf: (string, Typed) -> string, p: BindingParameters)
    ensures SlashFreeFields(p) ==> (Straight(keyOf, p) <==> SlashFree(KeyFor(keyOf, p)))
    ensures p.vhost == "/" && SlashFree(p.source) && SlashFree(p.destinationType) && SlashFree(p.destination) ==>
      (Straight(keyOf, p) <==> KeyFor(keyOf, p) == p.destination)
  {
    if SlashFreeFields(p) {
      KeyRecoveredIff(p.vhost, p.source, p.destinationType, p.destination, KeyFor(keyOf, p));
    } else if p.vhost == "/" && SlashFree(p.source) && SlashFree(p.destinationType) && SlashFree(p.destination) {
      DefaultVhostLosesKey(p.source, p.destinationType, p.destination, KeyFor(keyOf, p));
    }
  }

  /** Two specifications declare the same binding exactly when they agree on the
      endpoints and the routing key and their arguments have the same round trip. */
  lemma SameBindingIff(keyOf: (string, Typed) -> string, p: BindingParameters, q: BindingParameters)
    ensures Own(keyOf, p) == Own(keyOf, q)
       <==> SameEndpoints(p, q) && p.routingKey == q.routingKey && RoundTrip(ArgumentsOf(p)) == RoundTrip(ArgumentsOf(q))
  {
    SameTypedIff(ArgumentsOf(p), ArgumentsOf(q));
  }

  predicate SameEndpoints(p: BindingParameters, q: BindingParameters) {
    p.vhost == q.vhost && p.source == q.source && p.destination == q.destination && p.destinationType == q.destinationType
  }

  /** A header that can be decoded names the key of the declared binding in its last segment. */
  ghost predicate HonestLocation(server: BindingServer, p: BindingParameters) {
    KeyFromLocation(server.location).Some? ==>
      exists prefix, e :: server.location == prefix + "/" + e && Encodes(e, KeyFor(server.keyOf, p))
  }

  lemma HonestKey(server: BindingServer, p: BindingParameters)
    requires HonestLocation(server, p) && KeyFromLocation(server.location).Some?
    ensures KeyFromLocation(server.location) == Some(KeyFor(server.keyOf, p))
  {
    var prefix, e :| server.location == prefix + "/" + e && Encodes(e, KeyFor(server.keyOf, p));
    LocationKey(prefix, e, KeyFor(server.keyOf, p));
  }

  /** born remembers the parameters with which the resource was last named. */
  datatype BindingWorld = BindingWorld(cr: Cr, bindings: seq<BindingInfo>, born: BindingParameters)

  /** Outside stands for everything that others do to the bindings of the broker. */
  datatype BindingStep =
    | Reconcile(server: BindingServer)
    | Outside(bindings: seq<BindingInfo>)
    | Edit(p: BindingParameters)

  /** The immutability rules: every required field, and arguments once set. */
  predicate Admitted(before: BindingParameters, after: BindingParameters) {
    && SameEndpoints(before, after) && after.routingKey == before.routingKey
    && (before.arguments.Some? ==> after.arguments == before.arguments)
  }

  ghost predicate Legal(keyOf: (string, Typed) -> string, w: BindingWorld, step: BindingStep) {
    match step
    case Reconcile(server) => server.keyOf == keyOf && HonestLocation(server, w.cr.forProvider)
    case Outside(bindings) => WellKeyed(keyOf, bindings)
    case Edit(p) => Admitted(w.cr.forProvider, p)
  }

  /** Observe, and then Create when nothing was found. */
  function Reconciled(w: BindingWorld, server: BindingServer): BindingWorld {
    var (cr, r) := ObserveOf(w.cr, w.bindings, server.reachable);
    if r.Ok? && !r.value.found then
      var (created, bindings, done) := CreateOf(cr, w.bindings, server);
      BindingWorld(created, bindings, if done.Ok? then cr.forProvider else w.born)
    else w.(cr := cr)
  }

  function Next(w: BindingWorld, step: BindingStep): BindingWorld {
    match step
    case Reconcile(server) => Reconciled(w, server)
    case Outside(bindings) => w.(bindings := bindings)
    case Edit(p) => w.(cr := w.cr.(forProvider := p))
  }

  ghost predicate Reaches(keyOf: (string, Typed) -> string, w: BindingWorld, steps: seq<BindingStep>, w': BindingWorld)
    decreases |steps|
  {
    if steps == [] then w' == w
    else Legal(keyOf, w, steps[0]) && Reaches(keyOf, Next(w, steps[0]), steps[1..], w')
  }

  predicate IsManaged(w: BindingWorld) {
    IsCrossplaneManaged(w.cr.annotations)
  }

  /** A managed resource carries the name that Create gave it, and has been
      edited since only as the rules allow. */
  ghost predicate Inv(keyOf: (string, Typed) -> string, w: BindingWorld) {
    && WellKeyed(keyOf, w.bindings)
    && (IsManaged(w) ==>
          && EXTERNAL_NAME in w.cr.annotations
          && w.cr.annotations[EXTERNAL_NAME] == ExternalNameOf(w.born, KeyFor(keyOf, w.born))
          && Admitted(w.born, w.cr.forProvider))
  }

  lemma NextKeeps(keyOf: (string, Typed) -> string, w: BindingWorld, step: BindingStep)
    requires Inv(keyOf, w) && Legal(keyOf, w, step)
    ensures Inv(keyOf, Next(w, step))
  {
    match step
    case Reconcile(server) => ReconcileKeeps(keyOf, w, server);
    case Outside(_) =>
    case Edit(_) =>
  }

  lemma ReconcileKeeps(keyOf: (string, Typed) -> string, w: BindingWorld, server: BindingServer)
    requires Inv(keyOf, w) && Legal(keyOf, w, Reconcile(server))
    ensures Inv(keyOf, Reconciled(w, server))
    ensures Reconciled(w, server).cr.forProvider == w.cr.forProvider
    ensures IsManaged(Reconciled(w, server)) ==>
      Reconciled(w, server).born == w.cr.forProvider || (IsManaged(w) && Reconciled(w, server).born == w.born)
  {
    var (cr, r) := ObserveOf(w.cr, w.bindings, server.reachable);
    assert cr.forProvider == w.cr.forProvider && cr.annotations == w.cr.annotations;
    if r.Ok? && !r.value.found && KeyFromLocation(server.location).Some? {
      HonestKey(server, w.cr.forProvider);
    }
  }

  lemma {:induction false} InvHolds(keyOf: (string, Typed) -> string, w: BindingWorld, steps: seq<BindingStep>, w': BindingWorld)
    requires Inv(keyOf, w) && Reaches(keyOf, w, steps, w')
    ensures Inv(keyOf, w')
    decreases |steps|
  {
    if steps != [] {
      NextKeeps(keyOf, w, steps[0]);
      InvHolds(keyOf, Next(w, steps[0]), steps[1..], w');
    }
  }

  // ------------------------------------- what an operation does, from outside

  /** An accepted Create declares one binding, with the specified endpoints,
      routing key and arguments, integers as integers, unless it is there; it
      stores vhost, source, type, destination and decoded key joined by slashes. */
  lemma CreateMakes(cr: Cr, bindings: seq<BindingInfo>, server: BindingServer) returns (b: BindingInfo)
    ensures var p := cr.forProvider;
      && b.vhost == p.vhost && b.source == p.source && b.destination == p.destination && b.destinationType == p.destinationType
      && b.routingKey == p.routingKey && b.propertiesKey == server.keyOf(b.routingKey, b.arguments)
      && (if p.arguments.Some? then Types(p.arguments.value, b.arguments) else b.arguments == map[])
    ensures var p, key := cr.forProvider, KeyFromLocation(server.location);
      CreateOf(cr, bindings, server)
      == if !server.accepts then (cr, bindings, Err(CreateFailed))
         else
           var after := if b in bindings then bindings else bindings + [b];
           if key.None? then (cr, after, Err(CreateFailed))
           else
             var name := p.vhost + "/" + p.source + "/" + p.destinationType + "/" + p.destination + "/" + key.value;
             (cr.(annotations := cr.annotations["crossplane.io/external-name" := name]["rabbitmq.crossplane.io/managed" := "true"]), after, Ok(()))
  {
    b := DeclaredBinding(cr.forProvider, server);
    TypedIs(ArgumentsOf(cr.forProvider));
  }

  /** A resource without the marker is refused while anything is listed, whatever its external name says. */
  lemma UnmarkedRefused(cr: Cr, bindings: seq<BindingInfo>)
    requires "rabbitmq.crossplane.io/managed" in cr.annotations ==> cr.annotations["rabbitmq.crossplane.io/managed"] != "true"
    ensures ObserveOf(cr, bindings, true)
         == (cr, if Listing(cr.forProvider, bindings) == [] then Ok(Observation(false, false, false)) else Err(NotCrossplaneManaged))
  {
    UnmarkedIff(cr.annotations);
  }

  // ------------------------------------------------------- what is found

  /** The key under which a resource looks for its binding. */
  function Slot(w: BindingWorld): Option<string> {
    KeySlot(StoredName(w.cr))
  }

  /** b is what Observe finds. */
  predicate Finds(w: BindingWorld, b: BindingInfo) {
    IsManaged(w) && Find(w.cr, Listing(w.cr.forProvider, w.bindings)) == Some(b)
  }

  lemma SlotIs(keyOf: (string, Typed) -> string, w: BindingWorld)
    requires Inv(keyOf, w) && IsManaged(w)
    ensures Slot(w) == KeySlot(ExternalNameOf(w.born, KeyFor(keyOf, w.born))) && Slot(w).Some?
    ensures Slot(w) == Some(KeyFor(keyOf, w.born)) <==> Straight(keyOf, w.born)
  {
    SlotOf(w.born.vhost, w.born.source, w.born.destinationType, w.born.destination, KeyFor(keyOf, w.born));
  }

  /** The only binding that a managed resource can find is the one on the broker
      with its endpoints and the key in the slot. */
  lemma FindsIff(keyOf: (string, Typed) -> string, w: BindingWorld, b: BindingInfo)
    requires Inv(keyOf, w) && IsManaged(w)
    ensures Finds(w, b) <==> b in w.bindings && b.vhost == w.cr.forProvider.vhost && Some(b.propertiesKey) == Slot(w) && Between(w.cr.forProvider, b)
  {
    var p := w.cr.forProvider;
    SlotIs(keyOf, w);
    FirstMatchIs(p, Slot(w).value, Listing(p, w.bindings));
    ListingMembers(p, w.bindings, b);
    if b in w.bindings && b.vhost == p.vhost && Matches(p, Slot(w).value, b) {
      var other := FirstMatch(p, Slot(w).value, Listing(p, w.bindings)).value;
      ListingMembers(p, w.bindings, other);
      assert other == b;
    }
  }

  /** Each field of the status is that of the binding that was found. */
  lemma StatusShows(w: BindingWorld, b: BindingInfo)
    requires Finds(w, b)
    ensures var status := ObserveOf(w.cr, w.bindings, true).0.atProvider;
      && status.Some?
      && status.value.source == b.source && status.value.vhost == b.vhost && status.value.destination == b.destination
      && status.value.destinationType == b.destinationType && status.value.routingKey == b.routingKey
      && status.value.propertiesKey == b.propertiesKey && status.value.arguments.Keys == b.arguments.Keys
      && forall k | k in b.arguments :: status.value.arguments[k] == ToText(b.arguments[k])
  {}

  /** It is the binding that the resource declared exactly when the slot holds its key. */
  lemma FoundIsDeclaredIff(keyOf: (string, Typed) -> string, w: BindingWorld, b: BindingInfo)
    requires Inv(keyOf, w) && Finds(w, b)
    ensures b == Own(keyOf, w.born) <==> Straight(keyOf, w.born)
  {
    FindsIff(keyOf, w, b);
    SlotIs(keyOf, w);
  }

  /** In the default virtual host the key is looked for in the wrong place:
      something is found only under a key equal to the destination. */
  lemma DefaultVhostFindsIff(keyOf: (string, Typed) -> string, w: BindingWorld, b: BindingInfo)
    requires Inv(keyOf, w) && IsManaged(w)
    requires var p := w.cr.forProvider;
      p.vhost == "/" && SlashFree(p.source) && SlashFree(p.destinationType) && SlashFree(p.destination)
    ensures Finds(w, b) <==> b in w.bindings && b.vhost == "/" && Matches(w.cr.forProvider, w.cr.forProvider.destination, b)
  {
    var p := w.born;
    DefaultVhostLosesKey(p.source, p.destinationType, p.destination, KeyFor(keyOf, p));
    SlotIs(keyOf, w);
    FindsIff(keyOf, w, b);
  }

  lemma UpToDateIff(p: BindingParameters, b: BindingInfo)
    ensures IsUpToDate(p, b)
       <==> && b.vhost == p.vhost && b.source == p.source && b.destination == p.destination && b.destinationType == p.destinationType
            && b.routingKey == p.routingKey && ToStrings(b.arguments) == ArgumentsOf(p)
  {
    MapsEqualJSONIff(p.arguments, Some(ToStrings(b.arguments)));
  }

  /** A declared binding is up to date exactly when its arguments survive the round trip. */
  lemma OwnUpToDateIff(keyOf: (string, Typed) -> string, p: BindingParameters)
    ensures IsUpToDate(p, Own(keyOf, p)) <==> AllSurvive(ArgumentsOf(p))
  {
    UpToDateIff(p, Own(keyOf, p));
    RoundTripIff(ArgumentsOf(p));
  }

  // ----------------------------------------------------- when Update is met

  predicate OutOfDate(w: BindingWorld, reachable: bool) {
    var (_, r) := ObserveOf(w.cr, w.bindings, reachable);
    r.Ok? && r.value.found && !r.value.upToDate
  }

  lemma OutOfDateIff(keyOf: (string, Typed) -> string, w: BindingWorld, reachable: bool)
    requires Inv(keyOf, w)
    ensures OutOfDate(w, reachable) <==> reachable && exists b :: Finds(w, b) && !IsUpToDate(w.cr.forProvider, b)
  {
    if OutOfDate(w, reachable) {
      assert Finds(w, Find(w.cr, Listing(w.cr.forProvider, w.bindings)).value);
    }
    if b :| Finds(w, b) && !IsUpToDate(w.cr.forProvider, b) {
      FindsIff(keyOf, w, b);
      ListingMembers(w.cr.forProvider, w.bindings, b);
    }
  }

  /** In every reachable state, whatever others did to the broker, the error of
      Update is met exactly when the binding in the slot is there with another
      routing key, or with arguments that do not print as the specified ones. */
  lemma UpdateMetIff(keyOf: (string, Typed) -> string, w: BindingWorld, steps: seq<BindingStep>, w': BindingWorld, reachable: bool)
    requires Inv(keyOf, w) && Reaches(keyOf, w, steps, w')
    ensures OutOfDate(w', reachable)
       <==> && reachable && IsManaged(w')
            && var p := w'.cr.forProvider;
               exists b :: b in w'.bindings && b.vhost == p.vhost && Between(p, b) && Some(b.propertiesKey) == Slot(w')
                           && (b.routingKey != p.routingKey || ToStrings(b.arguments) != ArgumentsOf(p))
  {
    InvHolds(keyOf, w, steps, w');
    OutOfDateIff(keyOf, w', reachable);
    forall b | IsManaged(w') && (Finds(w', b) || (b in w'.bindings && b.vhost == w'.cr.forProvider.vhost && Between(w'.cr.forProvider, b)
        && Some(b.propertiesKey) == Slot(w')))
      ensures Finds(w', b)
      ensures b in w'.bindings && b.vhost == w'.cr.forProvider.vhost && Between(w'.cr.forProvider, b) && Some(b.propertiesKey) == Slot(w')
      ensures IsUpToDate(w'.cr.forProvider, b) <==> b.routingKey == w'.cr.forProvider.routingKey && ToStrings(b.arguments) == ArgumentsOf(w'.cr.forProvider)
    {
      FindsIff(keyOf, w', b);
      UpToDateIff(w'.cr.forProvider, b);
    }
  }

  /** Where the slot holds the key, that is: exactly when the binding that was
      declared is there and its arguments have not survived, or were added later. */
  lemma StraightUpdateMetIff(keyOf: (string, Typed) -> string, w: BindingWorld, steps: seq<BindingStep>, w': BindingWorld, reachable: bool)
    requires Inv(keyOf, w) && Reaches(keyOf, w, steps, w') && Straight(keyOf, w'.born)
    ensures OutOfDate(w', reachable)
       <==> && reachable && IsManaged(w') && Own(keyOf, w'.born) in w'.bindings
            && if w'.born.arguments.Some? then !AllSurvive(ArgumentsOf(w'.cr.forProvider)) else ArgumentsOf(w'.cr.forProvider) != map[]
  {
    InvHolds(keyOf, w, steps, w');
    OutOfDateIff(keyOf, w', reachable);
    if IsManaged(w') {
      var own, p := Own(keyOf, w'.born), w'.cr.forProvider;
      SlotIs(keyOf, w');
      FindsIff(keyOf, w', own);
      forall b | Finds(w', b) ensures b == own { FoundIsDeclaredIff(keyOf, w', b); }
      UpToDateIff(p, own);
      RoundTripIff(ArgumentsOf(w'.born));
    }
  }

  /** Edits that keep the slot straight and the arguments printable, and leave
      the arguments of a managed resource as they are. */
  ghost predicate Calm(keyOf: (string, Typed) -> string, w: BindingWorld, steps: seq<BindingStep>)
    decreases |steps|
  {
    steps != [] ==>
      && (steps[0].Edit? ==>
            && Straight(keyOf, steps[0].p) && AllSurvive(ArgumentsOf(steps[0].p))
            && (IsManaged(w) ==> ArgumentsOf(steps[0].p) == ArgumentsOf(w.cr.forProvider)))
      && Calm(keyOf, Next(w, steps[0]), steps[1..])
  }

  ghost predicate AtRest(keyOf: (string, Typed) -> string, w: BindingWorld) {
    && Straight(keyOf, w.cr.forProvider) && AllSurvive(ArgumentsOf(w.cr.forProvider))
    && (IsManaged(w) ==> ArgumentsOf(w.born) == ArgumentsOf(w.cr.forProvider))
  }

  lemma UpToDateAtRest(keyOf: (string, Typed) -> string, w: BindingWorld, reachable: bool)
    requires Inv(keyOf, w) && AtRest(keyOf, w)
    ensures !OutOfDate(w, reachable)
  {
    if IsManaged(w) {
      assert Straight(keyOf, w.born);
      StraightUpdateMetIff(keyOf, w, [], w, reachable);
    } else {
      OutOfDateIff(keyOf, w, reachable);
    }
  }

  lemma StaysAtRest(keyOf: (string, Typed) -> string, w: BindingWorld, step: BindingStep)
    requires Inv(keyOf, w) && Legal(keyOf, w, step) && AtRest(keyOf, w)
    requires step.Edit? ==>
      && Straight(keyOf, step.p) && AllSurvive(ArgumentsOf(step.p))
      && (IsManaged(w) ==> ArgumentsOf(step.p) == ArgumentsOf(w.cr.forProvider))
    ensures AtRest(keyOf, Next(w, step))
  {
    match step
    case Reconcile(server) => ReconcileKeeps(keyOf, w, server);
    case Outside(_) =>
    case Edit(_) =>
  }

  /** Then in no reachable state does Observe report a binding that exists but is
      out of date, even if bindings are deleted from outside, and the
      unconditional error of Update is never met. */
  lemma {:induction false} UpdateUnreachable(keyOf: (string, Typed) -> string, w: BindingWorld, steps: seq<BindingStep>, w': BindingWorld, reachable: bool)
    requires Inv(keyOf, w) && Reaches(keyOf, w, steps, w')
    requires AtRest(keyOf, w) && Calm(keyOf, w, steps)
    ensures !OutOfDate(w', reachable)
    decreases |steps|
  {
    if steps == [] {
      UpToDateAtRest(keyOf, w, reachable);
    } else {
      NextKeeps(keyOf, w, steps[0]);
      StaysAtRest(keyOf, w, steps[0]);
      UpdateUnreachable(keyOf, Next(w, steps[0]), steps[1..], w', reachable);
    }
  }

  /** The observation after a successful Create: the binding is found if the slot
      holds its key, up to date exactly when the arguments survive; otherwise
      something is found exactly when another binding has the key in the slot. */
  lemma CreateThenObserve(keyOf: (string, Typed) -> string, w: BindingWorld, server: BindingServer)
    requires Inv(keyOf, w) && Legal(keyOf, w, Reconcile(server))
    requires CreateOf(w.cr, w.bindings, server).2.Ok?
    ensures var p := w.cr.forProvider;
      var (cr, bindings, _) := CreateOf(w.cr, w.bindings, server);
      var (_, r) := ObserveOf(cr, bindings, true);
      && r.Ok?
      && (Straight(keyOf, p) ==> r.value == Observation(true, AllSurvive(ArgumentsOf(p)), false))
      && (!Straight(keyOf, p) ==>
            (r.value.found <==> exists b :: b in w.bindings && b.vhost == p.vhost && Between(p, b)
                                            && Some(b.propertiesKey) == KeySlot(ExternalNameOf(p, KeyFor(keyOf, p)))))
  {
    var p := w.cr.forProvider;
    HonestKey(server, p);
    var (cr, bindings, _) := CreateOf(w.cr, w.bindings, server);
    var own := Own(keyOf, p);
    var created := BindingWorld(cr, bindings, p);
    assert Inv(keyOf, created);
    SlotIs(keyOf, created);
    OwnUpToDateIff(keyOf, p);
    forall b ensures Finds(created, b) <==> b in bindings && b.vhost == p.vhost && Between(p, b) && Some(b.propertiesKey) == Slot(created) {
      FindsIff(keyOf, created, b);
    }
    ListingMembers(p, bindings, own);
    if Straight(keyOf, p) {
      assert Finds(created, own);
    } else if Find(cr, Listing(p, bindings)).Some? {
      assert Finds(created, Find(cr, Listing(p, bindings)).value);
    }
  }

  /** The rules do admit setting arguments later. The binding is then found out
      of date, and Update is met, exactly when they are not empty. */
  lemma LaterArgumentsMeetUpdate(keyOf: (string, Typed) -> string, w: BindingWorld, a: Strings, b: BindingInfo)
    requires Inv(keyOf, w) && Straight(keyOf, w.born) && Finds(w, b)
    requires w.cr.forProvider.arguments.None?
    ensures var p := w.cr.forProvider.(arguments := Some(a));
      && Admitted(w.cr.forProvider, p)
      && ObserveOf(w.cr.(forProvider := p), w.bindings, true).1 == Ok(Observation(true, a == map[], false))
  {
    var p := w.cr.forProvider.(arguments := Some(a));
    var edited := w.(cr := w.cr.(forProvider := p));
    FoundIsDeclaredIff(keyOf, w, b);
    FindsIff(keyOf, w, b);
    FindsIff(keyOf, edited, b);
    ListingMembers(p, w.bindings, b);
    UpToDateIff(p, b);
  }

  // -------------------------------------------------------------- deletion

  /** Delete after an observation that found something removes what was found
      and leaves every other binding, also between the same endpoints, in place.
      That was the resource's own binding exactly when the slot held its key. */
  lemma DeletesFound(keyOf: (string, Typed) -> string, w: BindingWorld, server: BindingServer, found: BindingInfo)
    requires Inv(keyOf, w) && Finds(w, found) && server.deletes
    ensures var (cr, r) := ObserveOf(w.cr, w.bindings, true);
      && r.Ok? && r.value.found && Some(StatusKey(cr)) == Slot(w)
      && found in w.bindings
      && forall b :: b in DeleteOf(cr, w.bindings, server).0 <==> b in w.bindings && b != found
    ensures found == Own(keyOf, w.born) <==> Straight(keyOf, w.born)
  {
    var p := w.cr.forProvider;
    FindsIff(keyOf, w, found);
    ListingMembers(p, w.bindings, found);
    FoundIsDeclaredIff(keyOf, w, found);
    FilterMembers(Survivors(p, found.propertiesKey), w.bindings);
    forall b | b in w.bindings && b.vhost == p.vhost && Matches(p, found.propertiesKey, b) ensures b == found {}
  }

  /** With slash-free fields and a slash-free key, Delete removes exactly the
      binding that Create made. */
  lemma DeletesExactly(keyOf: (string, Typed) -> string, w: BindingWorld, server: BindingServer, found: BindingInfo)
    requires Inv(keyOf, w) && Finds(w, found) && server.deletes
    requires SlashFreeFields(w.cr.forProvider) && SlashFree(KeyFor(keyOf, w.born))
    ensures var (cr, _) := ObserveOf(w.cr, w.bindings, true);
      forall b :: b in DeleteOf(cr, w.bindings, server).0 <==> b in w.bindings && b != Own(keyOf, w.born)
  {
    StraightIff(keyOf, w.born);
    DeletesFound(keyOf, w, server, found);
  }

  /** In the default virtual host it removes the binding whose key is the
      destination, and the resource's own one stays unless it has that key. */
  lemma DefaultVhostDeletesAnother(keyOf: (string, Typed) -> string, w: BindingWorld, server: BindingServer, found: BindingInfo)
    requires Inv(keyOf, w) && Finds(w, found) && server.deletes
    requires var p := w.cr.forProvider;
      p.vhost == "/" && SlashFree(p.source) && SlashFree(p.destinationType) && SlashFree(p.destination)
    ensures var (cr, _) := ObserveOf(w.cr, w.bindings, true);
      var after := DeleteOf(cr, w.bindings, server).0;
      && found.propertiesKey == w.cr.forProvider.destination && found !in after
      && (Own(keyOf, w.born) in w.bindings ==>
            (Own(keyOf, w.born) in after <==> KeyFor(keyOf, w.born) != w.cr.forProvider.destination))
  {
    StraightIff(keyOf, w.born);
    DefaultVhostFindsIff(keyOf, w, found);
    DeletesFound(keyOf, w, server, found);
  }

  // ---------------------------------------------------- undecodable headers

  function ReconciledBy(w: BindingWorld, servers: seq<BindingServer>): BindingWorld
    decreases |servers|
  {
    if servers == [] then w else ReconciledBy(Reconciled(w, servers[0]), servers[1..])
  }

  /** An accepted Create makes the resource managed exactly when every percent
      sign in the last segment of the header is followed by two hexadecimal
      digits. Otherwise the binding is there all the same, and blocks the
      resource through any number of later reconciles. */
  lemma BadLocationOrphans(w: BindingWorld, server: BindingServer, later: seq<BindingServer>)
    requires !IsManaged(w) && Listing(w.cr.forProvider, w.bindings) == []
    requires server.reachable && server.accepts
    ensures var w' := Reconciled(w, server);
      && DeclaredBinding(w.cr.forProvider, server) in w'.bindings
      && (IsManaged(w') <==> Decodable(LastSegment(server.location)))
      && (!IsManaged(w') ==> ReconciledBy(w', later) == w')
  {
    var w' := Reconciled(w, server);
    DecodesIff(LastSegment(server.location));
    ListingMembers(w.cr.forProvider, w'.bindings, DeclaredBinding(w.cr.forProvider, server));
    if !IsManaged(w') { Stuck(w', later); }
  }

  /** An unmanaged resource with anything in its listing is stuck. */
  lemma {:induction false} Stuck(w: BindingWorld, servers: seq<BindingServer>)
    requires !IsManaged(w) && Listing(w.cr.forProvider, w.bindings) != []
    ensures ReconciledBy(w, servers) == w
    decreases |servers|
  {
    if servers != [] { Stuck(w, servers[1..]); }
  }
}
