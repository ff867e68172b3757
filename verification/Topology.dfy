/** What the queue and the exchange controller have in common: parameters with
    optional scalars and string arguments, and objects with typed arguments on
    the broker. A nil pointer or map is None. */
module Topology {
  import opened Wrappers
  import opened Arguments
  import opened CanonicalJson
  import opened Pointers
  import opened Controller
  import opened Runs
  import opened Silence

  datatype ObjectSettings = ObjectSettings(
    typ: Option<string>, durable: Option<bool>, autoDelete: Option<bool>, arguments: Option<Strings>)

  datatype ObjectParameters = ObjectParameters(
    name: Option<string>, vhost: string, settings: Option<ObjectSettings>)

  /** rabbithole.DetailedQueueInfo and DetailedExchangeInfo, as far as they are read. */
  datatype ObjectInfo = ObjectInfo(
    name: string, vhost: string, typ: string, durable: bool, autoDelete: bool, arguments: Typed)

  datatype ObjectStatus = ObjectStatus(
    name: string, vhost: string, typ: string, durable: bool, autoDelete: bool, arguments: Strings)

  /** rabbithole.QueueSettings and ExchangeSettings; unset strings and booleans are zero. */
  datatype Declaration = Declaration(typ: string, durable: bool, autoDelete: bool, arguments: Option<Typed>)

  type ObjectKey = (string, string)

  /** Where the two differ: the type declared for an unset one, and whether late
      initialisation fills unset fields or only allocates the block. */
  datatype Profile = Profile(defaultType: string, fillsUnset: bool)

  const UNSET := ObjectSettings(None, None, None, None)

  function SettingsOf(p: ObjectParameters): ObjectSettings {
    p.settings.GetOr(UNSET)
  }

  function ExternalName(name: string, p: ObjectParameters): string {
    p.name.GetOr(name)
  }

  function Generate(profile: Profile, settings: Option<ObjectSettings>): Declaration {
    match settings
    case None => Declaration(profile.defaultType, false, false, None)
    case Some(s) =>
      Declaration(s.typ.GetOr(profile.defaultType), s.durable.GetOr(false), s.autoDelete.GetOr(false),
                  if s.arguments.Some? then Some(ToTyped(s.arguments.value)) else None)
  }

  function FillSettings(s: ObjectSettings, api: ObjectInfo): ObjectSettings {
    ObjectSettings(
      Some(s.typ.GetOr(api.typ)),
      Some(s.durable.GetOr(api.durable)),
      Some(s.autoDelete.GetOr(api.autoDelete)),
      Some(s.arguments.GetOr(ToStrings(api.arguments))))
  }

  function LateInitialize(profile: Profile, p: ObjectParameters, api: ObjectInfo): ObjectParameters {
    p.(settings := Some(if profile.fillsUnset then FillSettings(SettingsOf(p), api) else SettingsOf(p)))
  }

  function StatusOf(api: ObjectInfo): ObjectStatus {
    ObjectStatus(api.name, api.vhost, api.typ, api.durable, api.autoDelete, ToStrings(api.arguments))
  }

  predicate IsUpToDate(p: ObjectParameters, api: ObjectInfo) {
    match p.settings
    case None => true
    case Some(s) =>
      && Agrees(s.typ, api.typ)
      && Agrees(s.durable, api.durable)
      && Agrees(s.autoDelete, api.autoDelete)
      && MapsEqualJSON(s.arguments, Some(ToStrings(api.arguments)))
  }

  /** omitempty drops an empty argument map; set pointers are kept. */
  function Persisted(p: ObjectParameters): ObjectParameters {
    match p.settings
    case None => p
    case Some(s) =>
      if s.arguments == Some(map[]) then p.(settings := Some(s.(arguments := None))) else p
  }

  function KindOf(profile: Profile): Kind<ObjectParameters, ObjectKey, ObjectInfo, Declaration, ObjectStatus> {
    Kind(
      (name, p: ObjectParameters) => (p.vhost, ExternalName(name, p)),
      (name, p) => ExternalName(name, p),
      (p, api) => LateInitialize(profile, p, api),
      (p, api) => Ok(IsUpToDate(p, api)),
      (p: ObjectParameters) => Ok(Generate(profile, p.settings)),
      api => StatusOf(api))
  }

  /** The broker stores a set field as declared and may normalise an unset
      scalar to anything. Unset arguments become empty, or, where late
      initialisation takes them over, anything. */
  ghost predicate Stored(profile: Profile, p: ObjectParameters, d: Declaration, api: ObjectInfo) {
    var s := SettingsOf(p);
    && (s.typ.Some? ==> api.typ == d.typ)
    && (s.durable.Some? ==> api.durable == d.durable)
    && (s.autoDelete.Some? ==> api.autoDelete == d.autoDelete)
    && (s.arguments.Some? || !profile.fillsUnset ==> api.arguments == d.arguments.GetOr(map[]))
  }

  ghost function StoredBy(profile: Profile): Stores<ObjectParameters, Declaration, ObjectInfo> {
    (p, d, api) => Stored(profile, p, d, api)
  }

  /** Set arguments that come back from the broker as they were written. */
  predicate Echoed(p: ObjectParameters) {
    var a := SettingsOf(p).arguments;
    a.Some? ==> AllSurvive(a.value)
  }

  predicate Garbled(p: ObjectParameters) {
    !Echoed(p)
  }

  /** Writing a block back drops an empty argument map and nothing else. */
  lemma OmitsEmpty(p: ObjectParameters)
    ensures SettingsOf(p).arguments != Some(map[]) ==> Persisted(p) == p
    ensures SettingsOf(p).arguments == Some(map[]) ==> Persisted(p) == p.(settings := Some(SettingsOf(p).(arguments := None)))
  {}

  // ------------------------------------------- what reaches the broker

  /** d declares set fields as they are, integers among the arguments as
      integers, an unset type as defaultType and any other unset field as its zero. */
  ghost predicate Declares(settings: Option<ObjectSettings>, defaultType: string, d: Declaration) {
    match settings
    case None => d == Declaration(defaultType, false, false, None)
    case Some(s) =>
      && (if s.typ.Some? then d.typ == s.typ.value else d.typ == defaultType)
      && (d.durable <==> s.durable == Some(true))
      && (d.autoDelete <==> s.autoDelete == Some(true))
      && (if s.arguments.Some? then d.arguments.Some? && Types(s.arguments.value, d.arguments.value) else d.arguments == None)
  }

  /** Create and Update declare exactly that under the vhost and the name, which
      is the resource's own unless the specification gives one; Observe and
      Delete look there and nowhere else. */
  lemma ObjectActs(profile: Profile, cr: CrState<ObjectParameters, ObjectStatus>, objects: map<ObjectKey, ObjectInfo>,
                   server: Server<Declaration, ObjectInfo>)
    returns (d: Declaration)
    ensures Declares(cr.forProvider.settings, profile.defaultType, d)
    ensures var name := if cr.forProvider.name.Some? then cr.forProvider.name.value else cr.name;
      ActsAt(KindOf(profile), cr, objects, server, (cr.forProvider.vhost, name), name, Ok(d))
  {
    d := Generate(profile, cr.forProvider.settings);
    if cr.forProvider.settings.Some? && cr.forProvider.settings.value.arguments.Some? {
      TypedIs(cr.forProvider.settings.value.arguments.value);
    }
    ActsAtKey(KindOf(profile), cr, objects, server);
  }

  /** A block in which nothing is set declares the same as no block. */
  lemma EmptyBlockIsNoBlock(profile: Profile)
    ensures Generate(profile, Some(ObjectSettings(None, None, None, None))) == Generate(profile, None)
  {}

  /** Each field of the status is that of the broker's answer. */
  lemma StatusShows(profile: Profile, cr: CrState<ObjectParameters, ObjectStatus>, objects: map<ObjectKey, ObjectInfo>)
    requires IsCrossplaneManaged(cr.annotations)
    requires (cr.forProvider.vhost, cr.forProvider.name.GetOr(cr.name)) in objects
    ensures var api := objects[(cr.forProvider.vhost, cr.forProvider.name.GetOr(cr.name))];
      var status := ObserveOf(KindOf(profile), cr, objects, true).0.atProvider;
      && status.Some?
      && status.value.name == api.name && status.value.vhost == api.vhost && status.value.typ == api.typ
      && status.value.durable == api.durable && status.value.autoDelete == api.autoDelete
      && status.value.arguments.Keys == api.arguments.Keys
      && forall k | k in api.arguments :: status.value.arguments[k] == ToText(api.arguments[k])
  {}

  // ------------------------------------------------------------ comparison

  /** The observation of an object that anyone may have changed: up to date
      exactly when no set field differs from it, nor unset arguments that late
      initialisation leaves alone from the empty ones. */
  lemma UpToDateIff(profile: Profile, p: ObjectParameters, api: ObjectInfo)
    ensures var s := SettingsOf(p);
      Settled(KindOf(profile), p, api)
      <==> && (s.typ.Some? ==> s.typ.value == api.typ)
           && (s.durable.Some? ==> s.durable.value == api.durable)
           && (s.autoDelete.Some? ==> s.autoDelete.value == api.autoDelete)
           && match s.arguments
              case Some(a) => a == ToStrings(api.arguments)
              case None => profile.fillsUnset || api.arguments == map[]
  {
    var t := SettingsOf(LateInitialize(profile, p, api));
    MapsEqualJSONIff(t.arguments, Some(ToStrings(api.arguments)));
    assert ToStrings(api.arguments).Keys == api.arguments.Keys;
  }

  /** The observation after a write reports up to date exactly when every set
      argument survives the round trip. */
  lemma SettledIff(profile: Profile, p: ObjectParameters, api: ObjectInfo)
    requires Stored(profile, p, Generate(profile, p.settings), api)
    ensures Settled(KindOf(profile), p, api) <==> Echoed(p)
  {
    UpToDateIff(profile, p, api);
    var s := SettingsOf(p);
    if s.arguments.Some? {
      RoundTripIff(s.arguments.value);
    }
  }

  // ----------------------------------------------------------- ownership

  lemma KeyStableObject(profile: Profile)
    ensures KeyStable(KindOf(profile), Persisted)
  {}

  /** Any run over queues, or over exchanges, that starts with none of them managed. */
  lemma ObjectOwnership<Id(!new)>(
    profile: Profile,
    w: World<Id, ObjectParameters, ObjectKey, ObjectInfo, ObjectStatus>,
    steps: seq<Step<Id, ObjectParameters, Declaration, ObjectInfo, ObjectStatus>>,
    w': World<Id, ObjectParameters, ObjectKey, ObjectInfo, ObjectStatus>)
    requires w.writes == [] && forall id | id in w.crs :: !IsCrossplaneManaged(w.crs[id].annotations)
    requires Reaches(KindOf(profile), Persisted, w, steps, w')
    ensures Exclusive(KindOf(profile), w', w.objects)
  {
    KeyStableObject(profile);
    FreshStart(KindOf(profile), w);
    ExclusiveOwnership(KindOf(profile), Persisted, w, w.objects, steps, w');
  }

  // --------------------------------------------------------- convergence

  lemma SettlesObject(profile: Profile)
    ensures Settles(KindOf(profile), StoredBy(profile), Echoed)
  {
    forall p, d, api | Echoed(p) && KindOf(profile).settings(p) == Ok(d) && Stored(profile, p, d, api)
      ensures Settled(KindOf(profile), p, api)
    {
      SettledIff(profile, p, api);
    }
  }

  lemma StaysSettledObject(profile: Profile, api: ObjectInfo)
    ensures StaysSettled(KindOf(profile), Persisted, api)
  {
    forall p | Settled(KindOf(profile), p, api)
      ensures Settled(KindOf(profile), Persisted(LateInitialize(profile, p, api)), api)
    {
      UpToDateIff(profile, p, api);
      UpToDateIff(profile, Persisted(LateInitialize(profile, p, api)), api);
      assert ToStrings(api.arguments).Keys == api.arguments.Keys;
    }
  }

  /** One successful Create or Update with arguments that survive, then silence. */
  lemma ObjectConverges<Id>(
    profile: Profile, w: World<Id, ObjectParameters, ObjectKey, ObjectInfo, ObjectStatus>, id: Id,
    server: Server<Declaration, ObjectInfo>, servers: seq<Server<Declaration, ObjectInfo>>)
    requires id in w.crs && Wrote(KindOf(profile), Persisted, w, id, server)
    requires var p := Declared(KindOf(profile), Persisted, w, id);
      Echoed(p) && Honest(StoredBy(profile), p, Generate(profile, p.settings), server)
    ensures var w1 := Reconciled(KindOf(profile), Persisted, w, id, server);
      var w2 := ReconcileAll(KindOf(profile), Persisted, w1, id, servers);
      w2.writes == w1.writes && w2.objects == w1.objects
  {
    KeyStableObject(profile);
    SettlesObject(profile);
    forall api ensures StaysSettled(KindOf(profile), Persisted, api) { StaysSettledObject(profile, api); }
    Converges(KindOf(profile), Persisted, StoredBy(profile), Echoed, w, id, server, servers);
  }

  // ------------------------------------------------------- never settling

  /** Late initialisation and write-back keep set arguments that are not empty. */
  lemma GarbledStays(profile: Profile, p: ObjectParameters, api: ObjectInfo)
    requires Garbled(p)
    ensures Garbled(LateInitialize(profile, p, api)) && Garbled(Persisted(LateInitialize(profile, p, api)))
  {}

  /** What is stored for p is also stored for what late initialisation makes of p. */
  lemma StoredStays(profile: Profile, p: ObjectParameters, api: ObjectInfo)
    requires Garbled(p) && Stored(profile, p, Generate(profile, p.settings), api)
    ensures var q := Persisted(LateInitialize(profile, p, api));
      Stored(profile, q, Generate(profile, q.settings), api)
  {}

  lemma NeverSettlesObject(profile: Profile)
    ensures NeverSettles(KindOf(profile), Persisted, StoredBy(profile), Garbled)
  {
    var kind := KindOf(profile);
    forall p, d, api | Garbled(p) && kind.settings(p) == Ok(d) && Stored(profile, p, d, api)
      ensures kind.isUpToDate(kind.lateInitialize(p, api), api) == Ok(false)
    {
      SettledIff(profile, p, api);
    }
    forall p, api | Garbled(p)
      ensures Garbled(Persisted(kind.lateInitialize(p, api))) && Garbled(kind.lateInitialize(p, api))
    {
      GarbledStays(profile, p, api);
    }
    forall p, q, d, e, api | Garbled(p) && q == Persisted(kind.lateInitialize(p, api)) && kind.settings(p) == Ok(d)
        && StoredBy(profile)(p, d, api) && kind.settings(q) == Ok(e)
      ensures StoredBy(profile)(q, e, api)
    {
      StoredStays(profile, p, api);
    }
  }

  /** After a write, every later reconcile that reaches the broker declares the
      object again if some set argument does not survive, and none does
      otherwise, whatever the broker makes of the fields that are not set. */
  lemma DeclaresAgainIff<Id(!new)>(
    profile: Profile, w: World<Id, ObjectParameters, ObjectKey, ObjectInfo, ObjectStatus>, id: Id,
    api: ObjectInfo, servers: seq<Server<Declaration, ObjectInfo>>)
    requires Holds(KindOf(profile), w, id, api)
    requires var p := w.crs[id].forProvider; Stored(profile, p, Generate(profile, p.settings), api)
    requires HonestRun(KindOf(profile), Persisted, StoredBy(profile), w, id, servers)
    ensures |ReconcileAll(KindOf(profile), Persisted, w, id, servers).writes|
         == |w.writes| + if Echoed(w.crs[id].forProvider) then 0 else Reached(servers)
  {
    var p := w.crs[id].forProvider;
    KeyStableObject(profile);
    if Echoed(p) {
      SettledIff(profile, p, api);
      StaysSettledObject(profile, api);
      SilentForever(KindOf(profile), Persisted, w, id, api, servers);
    } else {
      NeverSettlesObject(profile);
      RestlessForever(KindOf(profile), Persisted, StoredBy(profile), Garbled, w, id, api, Generate(profile, p.settings), servers);
    }
  }
}
