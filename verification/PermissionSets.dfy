/** The permissions controller. Its settings block is required, but it is a
    pointer: without it late initialisation allocates an empty block, while
    Create and Update dereference nil. */
module PermissionSets {
  import opened Wrappers
  import opened Controller
  import opened Runs
  import opened Silence

  datatype PermissionSettings = PermissionSettings(configure: string, write: string, read: string)

  datatype PermissionParameters = PermissionParameters(user: string, vhost: string, settings: Option<PermissionSettings>)

  datatype PermissionInfo = PermissionInfo(user: string, vhost: string, configure: string, write: string, read: string)

  type PermissionObservation = PermissionInfo

  /** rabbithole.Permissions. */
  datatype Declaration = Declaration(configure: string, write: string, read: string)

  type PermissionKey = (string, string)

  function ExternalName(p: PermissionParameters): string {
    p.vhost + "/" + p.user
  }

  function Generate(settings: Option<PermissionSettings>): Result<Declaration, Failure> {
    match settings
    case None => Err(NilSettings)
    case Some(s) => Ok(Declaration(s.configure, s.write, s.read))
  }

  function LateInitialize(p: PermissionParameters, api: PermissionInfo): PermissionParameters {
    p.(settings := Some(p.settings.GetOr(PermissionSettings("", "", ""))))
  }

  function IsUpToDate(p: PermissionParameters, api: PermissionInfo): Result<bool, Failure> {
    match p.settings
    case None => Err(NilSettings)
    case Some(s) => Ok(s.configure == api.configure && s.write == api.write && s.read == api.read)
  }

  /** Nothing in the block is dropped when empty. */
  function Persisted(p: PermissionParameters): PermissionParameters {
    p
  }

  function PermissionKind(): Kind<PermissionParameters, PermissionKey, PermissionInfo, Declaration, PermissionObservation> {
    Kind(
      (name, p: PermissionParameters) => (p.vhost, p.user),
      (name, p) => ExternalName(p),
      (p, api) => LateInitialize(p, api),
      (p, api) => IsUpToDate(p, api),
      (p: PermissionParameters) => Generate(p.settings),
      api => api)
  }

  /** The three patterns are stored as declared. */
  ghost predicate Stored(p: PermissionParameters, d: Declaration, api: PermissionInfo) {
    api.configure == d.configure && api.write == d.write && api.read == d.read
  }

  /** Every operation is on the permissions of the user in the vhost, and on no
      others. The three patterns are declared each in its place; without a block
      nothing is. */
  lemma PermissionActs(cr: CrState<PermissionParameters, PermissionObservation>, objects: map<PermissionKey, PermissionInfo>,
                       server: Server<Declaration, PermissionInfo>)
    returns (s: Result<Declaration, Failure>)
    ensures var p := cr.forProvider;
      && (s.Err? <==> p.settings == None) && (s.Err? ==> s == Err(NilSettings))
      && (s.Ok? ==> s.value.configure == p.settings.value.configure && s.value.write == p.settings.value.write
                    && s.value.read == p.settings.value.read)
      && ActsAt(PermissionKind(), cr, objects, server, (p.vhost, p.user), p.vhost + "/" + p.user, s)
  {
    s := Generate(cr.forProvider.settings);
    ActsAtKey(PermissionKind(), cr, objects, server);
  }

  /** Each field of the status is that of the broker's answer. */
  lemma StatusShows(cr: CrState<PermissionParameters, PermissionObservation>, objects: map<PermissionKey, PermissionInfo>)
    requires IsCrossplaneManaged(cr.annotations) && (cr.forProvider.vhost, cr.forProvider.user) in objects
    ensures var api := objects[(cr.forProvider.vhost, cr.forProvider.user)];
      var status := ObserveOf(PermissionKind(), cr, objects, true).0.atProvider;
      && status.Some?
      && status.value.user == api.user && status.value.vhost == api.vhost
      && status.value.configure == api.configure && status.value.write == api.write && status.value.read == api.read
  {}

  /** A set block is kept, a missing one becomes empty; observing again changes
      nothing, and never runs into a nil block. */
  lemma LateInitializeIdempotent(p: PermissionParameters, api: PermissionInfo)
    ensures var q := LateInitialize(p, api);
      && q.user == p.user && q.vhost == p.vhost && q.settings.Some? && (p.settings.Some? ==> q == p)
      && LateInitialize(q, api) == q
      && IsUpToDate(q, api).Ok?
  {}

  // ----------------------------------------------------------- ownership

  lemma KeyStablePermission()
    ensures KeyStable(PermissionKind(), Persisted)
  {}

  /** Any run over permission sets that starts with none of them managed. */
  lemma PermissionOwnership<Id(!new)>(
    w: World<Id, PermissionParameters, PermissionKey, PermissionInfo, PermissionObservation>,
    steps: seq<Step<Id, PermissionParameters, Declaration, PermissionInfo, PermissionObservation>>,
    w': World<Id, PermissionParameters, PermissionKey, PermissionInfo, PermissionObservation>)
    requires w.writes == [] && forall id | id in w.crs :: !IsCrossplaneManaged(w.crs[id].annotations)
    requires Reaches(PermissionKind(), Persisted, w, steps, w')
    ensures Exclusive(PermissionKind(), w', w.objects)
  {
    KeyStablePermission();
    FreshStart(PermissionKind(), w);
    ExclusiveOwnership(PermissionKind(), Persisted, w, w.objects, steps, w');
  }

  // --------------------------------------------------------- convergence

  lemma SettlesPermission()
    ensures Settles(PermissionKind(), Stored, p => true)
  {}

  lemma StaysSettledPermission(api: PermissionInfo)
    ensures StaysSettled(PermissionKind(), Persisted, api)
  {}

  /** One successful Create or Update, then silence. */
  lemma PermissionConverges<Id>(w: World<Id, PermissionParameters, PermissionKey, PermissionInfo, PermissionObservation>, id: Id,
                         server: Server<Declaration, PermissionInfo>, servers: seq<Server<Declaration, PermissionInfo>>)
    requires id in w.crs && Wrote(PermissionKind(), Persisted, w, id, server)
    requires var p := Declared(PermissionKind(), Persisted, w, id);
      Honest(Stored, p, Generate(p.settings).value, server)
    ensures var w1 := Reconciled(PermissionKind(), Persisted, w, id, server);
      var w2 := ReconcileAll(PermissionKind(), Persisted, w1, id, servers);
      w2.writes == w1.writes && w2.objects == w1.objects
  {
    KeyStablePermission();
    SettlesPermission();
    forall api ensures StaysSettled(PermissionKind(), Persisted, api) { StaysSettledPermission(api); }
    Converges(PermissionKind(), Persisted, Stored, p => true, w, id, server, servers);
  }

  // -------------------------------------------------- drift, missing blocks

  const EMPTY := PermissionSettings("", "", "")

  /** On a managed resource one reconcile declares something exactly when the
      broker's patterns are not the ones wanted, and the broker then has them.
      What a resource without a block wants is that nothing be permitted. */
  lemma RepairsIff<Id>(w: World<Id, PermissionParameters, PermissionKey, PermissionInfo, PermissionObservation>, id: Id,
                       api: PermissionInfo, server: Server<Declaration, PermissionInfo>)
    requires Holds(PermissionKind(), w, id, api) && server.reachable
    requires var want := w.crs[id].forProvider.settings.GetOr(EMPTY);
      var d := Declaration(want.configure, want.write, want.read);
      server.declare(d).Some? && Stored(w.crs[id].forProvider, d, server.declare(d).value)
    ensures var cr := w.crs[id];
      var want := cr.forProvider.settings.GetOr(EMPTY);
      var w' := Reconciled(PermissionKind(), Persisted, w, id, server);
      var now := w'.objects[KeyOf(PermissionKind(), cr)];
      && (w'.writes != w.writes <==> PermissionSettings(api.configure, api.write, api.read) != want)
      && PermissionSettings(now.configure, now.write, now.read) == want
      && w'.crs[id].forProvider.settings == Some(want)
  {
    var cr := w.crs[id];
    var late := LateInitialize(cr.forProvider, api);
    assert KeyOf(PermissionKind(), cr.(forProvider := late)) == KeyOf(PermissionKind(), cr);
  }

  /** Without a block and without an object, reconciling comes to nothing, however often. */
  lemma {:induction false} AbsentBlockIdle<Id>(
    w: World<Id, PermissionParameters, PermissionKey, PermissionInfo, PermissionObservation>, id: Id,
    servers: seq<Server<Declaration, PermissionInfo>>)
    requires id in w.crs && w.crs[id].forProvider.settings.None? && KeyOf(PermissionKind(), w.crs[id]) !in w.objects
    ensures ReconcileAll(PermissionKind(), Persisted, w, id, servers) == w
    decreases |servers|
  {
    if servers != [] {
      assert Reconciled(PermissionKind(), Persisted, w, id, servers[0]) == w by {
        assert w.crs[id := w.crs[id]] == w.crs;
      }
      AbsentBlockIdle(w, id, servers[1..]);
    }
  }
}
