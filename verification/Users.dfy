/** The user controller: a user's password may be given directly, through a
    secret, or not at all, and is compared with the broker's salted hash. */
module Users {
  import opened Wrappers
  import opened Base64
  import opened Pointers
  import opened Controller
  import opened Runs
  import opened Silence
  import Password

  type Tags = Option<seq<string>>

  datatype SecretRef = SecretRef(namespace: string, name: string, key: string)

  datatype UserSettings = UserSettings(password: Option<Bytes>, passwordSecretRef: Option<SecretRef>, tags: Tags)

  datatype UserParameters = UserParameters(username: Option<string>, settings: Option<UserSettings>)

  datatype Algorithm = SHA256 | SHA512 | OtherAlgorithm

  /** rabbithole.UserInfo. */
  datatype UserInfo = UserInfo(name: string, passwordHash: string, algorithm: Algorithm, tags: seq<string>)

  datatype UserObservation = UserObservation(username: string, algorithm: Algorithm, tags: Tags)

  /** PutUser with a password, PutUserWithoutPassword without. */
  datatype Declaration = Declaration(password: Option<Bytes>, tags: Tags)

  /** The secrets of the cluster and the two hash functions. */
  datatype Context = Context(
    secrets: map<(string, string), map<string, Bytes>>, sha256: Bytes -> Bytes, sha512: Bytes -> Bytes)

  const UNSET := UserSettings(None, None, None)

  function SettingsOf(p: UserParameters): UserSettings {
    p.settings.GetOr(UNSET)
  }

  function ExternalName(name: string, p: UserParameters): string {
    p.username.GetOr(name)
  }

  /** resolveUserPassword: a direct password takes precedence over the secret,
      and the empty password means a user without one. */
  function ResolvePassword(c: Context, settings: Option<UserSettings>): Result<Bytes, Failure> {
    match settings
    case None => Ok([])
    case Some(s) =>
      if s.password.Some? then Ok(s.password.value)
      else if s.passwordSecretRef.Some? then
        var ref := s.passwordSecretRef.value;
        if (ref.namespace, ref.name) !in c.secrets then Err(PasswordUnresolved)
        else if ref.key !in c.secrets[(ref.namespace, ref.name)] then Err(PasswordUnresolved)
        else Ok(c.secrets[(ref.namespace, ref.name)][ref.key])
      else Ok([])
  }

  function Generate(c: Context, settings: Option<UserSettings>): Result<Declaration, Failure> {
    match ResolvePassword(c, settings)
    case Err(e) => Err(e)
    case Ok(password) =>
      var tags := settings.GetOr(UNSET).tags;
      Ok(Declaration(if password != [] then Some(password) else None, if |tags.GetOr([])| > 0 then tags else None))
  }

  function LateInitialize(p: UserParameters, api: UserInfo): UserParameters {
    var s := SettingsOf(p);
    p.(settings := Some(s.(tags := LateTags(s.tags, api.tags))))
  }

  function StatusOf(api: UserInfo): UserObservation {
    UserObservation(api.name, api.algorithm, if |api.tags| > 0 then Some(api.tags) else None)
  }

  /** A password is compared only when there is one on both sides and the hash
      function is known. */
  predicate PasswordAgrees(c: Context, password: Bytes, api: UserInfo) {
    password != [] && api.passwordHash != "" ==>
      && (api.algorithm == SHA256 ==> Password.IsUpToDate(c.sha256, password, api.passwordHash))
      && (api.algorithm == SHA512 ==> Password.IsUpToDate(c.sha512, password, api.passwordHash))
  }

  function IsUpToDate(c: Context, p: UserParameters, api: UserInfo): Result<bool, Failure> {
    match ResolvePassword(c, p.settings)
    case Err(e) => Err(e)
    case Ok(password) =>
      Ok(PasswordAgrees(c, password, api) && (p.settings.Some? ==> SameTags(p.settings.value.tags, api.tags)))
  }

  /** omitempty drops an empty tag list; set pointers are kept. */
  function Persisted(p: UserParameters): UserParameters {
    match p.settings
    case None => p
    case Some(s) => if s.tags == Some([]) then p.(settings := Some(s.(tags := None))) else p
  }

  function UserKind(c: Context): Kind<UserParameters, string, UserInfo, Declaration, UserObservation> {
    Kind(
      (name, p) => ExternalName(name, p),
      (name, p) => ExternalName(name, p),
      (p, api) => LateInitialize(p, api),
      (p, api) => IsUpToDate(c, p, api),
      (p: UserParameters) => Generate(c, p.settings),
      api => StatusOf(api))
  }

  /** A declared password is stored as a salted hash under either function;
      undeclared tags become empty. */
  ghost predicate StoredUnder(c: Context, d: Declaration, api: UserInfo) {
    && api.tags == d.tags.GetOr([])
    && (d.password.Some? ==>
          exists salt: Bytes :: |salt| == Password.SALT_LENGTH &&
            ((api.algorithm == SHA256 && api.passwordHash == Password.Stored(c.sha256, salt, d.password.value))
             || (api.algorithm == SHA512 && api.passwordHash == Password.Stored(c.sha512, salt, d.password.value))))
  }

  /** Writing a block back drops an empty list of tags and nothing else. */
  lemma OmitsEmpty(p: UserParameters)
    ensures SettingsOf(p).tags != Some([]) ==> Persisted(p) == p
    ensures SettingsOf(p).tags == Some([]) ==> Persisted(p) == p.(settings := Some(SettingsOf(p).(tags := None)))
  {}

  // ------------------------------------------- what reaches the broker

  /** A direct password wins whatever the secrets hold; then comes the secret
      that is named; with neither there is none, which is the empty password. */
  lemma PasswordComesFrom(c: Context, settings: Option<UserSettings>, s: UserSettings)
    requires settings == Some(s)
    ensures s.password.Some? ==> ResolvePassword(c, settings) == Ok(s.password.value)
    ensures SecretMissing(c, s) ==> ResolvePassword(c, settings) == Err(PasswordUnresolved)
    ensures s.password.None? && s.passwordSecretRef.Some? && !SecretMissing(c, s) ==>
      var ref := s.passwordSecretRef.value; ResolvePassword(c, settings) == Ok(c.secrets[(ref.namespace, ref.name)][ref.key])
    ensures s.password.None? && s.passwordSecretRef.None? ==> ResolvePassword(c, settings) == Ok([])
    ensures ResolvePassword(c, None) == Ok([])
  {}

  /** d declares the password unless it is empty, and tags if there are any. */
  ghost predicate Declares(c: Context, settings: Option<UserSettings>, d: Declaration) {
    && ResolvePassword(c, settings).Ok?
    && (if ResolvePassword(c, settings).value == [] then d.password == None else d.password == Some(ResolvePassword(c, settings).value))
    && (match settings
        case None => d.tags == None
        case Some(s) => if s.tags == None || s.tags == Some([]) then d.tags == None else d.tags == s.tags)
  }

  /** Every operation is on the user with the given name, or else with the name
      of the resource, and on no other; without the password nothing is declared. */
  lemma UserActs(c: Context, cr: CrState<UserParameters, UserObservation>, objects: map<string, UserInfo>, server: Server<Declaration, UserInfo>)
    returns (s: Result<Declaration, Failure>)
    ensures s.Ok? ==> Declares(c, cr.forProvider.settings, s.value)
    ensures s.Err? ==> s == Err(PasswordUnresolved)
    ensures s.Err? <==> cr.forProvider.settings.Some? && SecretMissing(c, cr.forProvider.settings.value)
    ensures var name := if cr.forProvider.username.Some? then cr.forProvider.username.value else cr.name;
      ActsAt(UserKind(c), cr, objects, server, name, name, s)
  {
    s := Generate(c, cr.forProvider.settings);
    ActsAtKey(UserKind(c), cr, objects, server);
  }

  /** Each field of the status is that of the broker's answer. */
  lemma StatusShows(c: Context, cr: CrState<UserParameters, UserObservation>, objects: map<string, UserInfo>)
    requires IsCrossplaneManaged(cr.annotations) && cr.forProvider.username.GetOr(cr.name) in objects
    ensures var api := objects[cr.forProvider.username.GetOr(cr.name)];
      var status := ObserveOf(UserKind(c), cr, objects, true).0.atProvider;
      && status.Some?
      && status.value.username == api.name && status.value.algorithm == api.algorithm
      && (if api.tags == [] then status.value.tags == None else status.value.tags == Some(api.tags))
  {}

  // ---------------------------------------------------------- passwords

  /** Without a password, a stored hash or a known hash function nothing counts as drift. */
  lemma NothingToCompare(c: Context, password: Bytes, api: UserInfo)
    requires password == [] || api.passwordHash == "" || api.algorithm == OtherAlgorithm
    ensures PasswordAgrees(c, password, api)
  {}

  /** The password is left to a secret that is not there, or lacks the key. */
  predicate SecretMissing(c: Context, s: UserSettings) {
    && s.password.None? && s.passwordSecretRef.Some?
    && var ref := s.passwordSecretRef.value;
       (ref.namespace, ref.name) !in c.secrets || ref.key !in c.secrets[(ref.namespace, ref.name)]
  }

  /** Late initialisation never touches where the password comes from. */
  lemma PasswordKept(c: Context, p: UserParameters, api: UserInfo)
    ensures ResolvePassword(c, LateInitialize(p, api).settings) == ResolvePassword(c, p.settings)
    ensures ResolvePassword(c, Persisted(p).settings) == ResolvePassword(c, p.settings)
  {}

  /** What the broker stored for a declaration never counts as password drift. */
  lemma NoDriftAfterWrite(c: Context, settings: Option<UserSettings>, api: UserInfo)
    requires Generate(c, settings).Ok? && StoredUnder(c, Generate(c, settings).value, api)
    ensures PasswordAgrees(c, ResolvePassword(c, settings).value, api)
  {
    var password := ResolvePassword(c, settings).value;
    if password != [] {
      var salt: Bytes :| |salt| == Password.SALT_LENGTH &&
        ((api.algorithm == SHA256 && api.passwordHash == Password.Stored(c.sha256, salt, password))
         || (api.algorithm == SHA512 && api.passwordHash == Password.Stored(c.sha512, salt, password)));
      Password.AcceptsStoredIff(c.sha256, salt, password, password);
      Password.AcceptsStoredIff(c.sha512, salt, password, password);
    }
  }

  function HashOf(c: Context, api: UserInfo): Password.Hash {
    if api.algorithm == SHA256 then c.sha256 else c.sha512
  }

  /** A changed password is seen, under either function, exactly when its salted hash differs. */
  lemma DriftSeenIff(c: Context, salt: Bytes, stored: Bytes, wanted: Bytes, api: UserInfo)
    requires |salt| == Password.SALT_LENGTH && wanted != [] && api.algorithm != OtherAlgorithm
    requires api.passwordHash == Password.Stored(HashOf(c, api), salt, stored)
    ensures var h := HashOf(c, api);
      !PasswordAgrees(c, wanted, api) <==> h(salt + wanted) != h(salt + stored)
  {
    var h := HashOf(c, api);
    Password.AcceptsStoredIff(h, salt, wanted, stored);
    assert api.passwordHash != "" by {
      EncodedLength(salt + h(salt + stored));
    }
  }

  // ------------------------------------------------- late initialisation

  /** Only the tags can change: a second observation changes nothing, before or
      after the resource has been written back. */
  lemma LateInitializeIdempotent(p: UserParameters, api: UserInfo)
    ensures var q := LateInitialize(p, api);
      && q.username == p.username && q.settings.Some?
      && SettingsOf(q) == SettingsOf(p).(tags := SettingsOf(q).tags)
      && (|api.tags| > 0 && |SettingsOf(p).tags.GetOr([])| > 0 ==> SettingsOf(q).tags == Some(api.tags))
      && (|api.tags| == 0 || |SettingsOf(p).tags.GetOr([])| == 0 ==> SettingsOf(q).tags == SettingsOf(p).tags)
      && LateInitialize(q, api) == q && LateInitialize(Persisted(q), api) == Persisted(q)
  {}

  // ----------------------------------------------------------- ownership

  lemma KeyStableUser(c: Context)
    ensures KeyStable(UserKind(c), Persisted)
  {}

  /** Any run over users that starts with none of them managed. */
  lemma UserOwnership<Id(!new)>(
    c: Context,
    w: World<Id, UserParameters, string, UserInfo, UserObservation>,
    steps: seq<Step<Id, UserParameters, Declaration, UserInfo, UserObservation>>,
    w': World<Id, UserParameters, string, UserInfo, UserObservation>)
    requires w.writes == [] && forall id | id in w.crs :: !IsCrossplaneManaged(w.crs[id].annotations)
    requires Reaches(UserKind(c), Persisted, w, steps, w')
    ensures Exclusive(UserKind(c), w', w.objects)
  {
    KeyStableUser(c);
    FreshStart(UserKind(c), w);
    ExclusiveOwnership(UserKind(c), Persisted, w, w.objects, steps, w');
  }

  // --------------------------------------------------------- convergence

  ghost function StoredIn(c: Context): Stores<UserParameters, Declaration, UserInfo> {
    (p, d, api) => StoredUnder(c, d, api)
  }

  /** As far as tags go, the observation is up to date unless one list is empty and the other is not. */
  lemma UpToDateIff(c: Context, p: UserParameters, api: UserInfo)
    ensures Settled(UserKind(c), p, api)
       <==> ResolvePassword(c, p.settings).Ok? && PasswordAgrees(c, ResolvePassword(c, p.settings).value, api)
            && ((SettingsOf(p).tags.GetOr([]) == []) == (api.tags == []))
  {
    PasswordKept(c, p, api);
    LateTagsDifferIff(SettingsOf(p).tags, api.tags);
  }

  /** When a reconcile of a user sends something: never while the secret is
      missing; otherwise to create an absent user, or for a managed one whose
      password differs or has tags on one side only. */
  lemma SendsIff<Id>(c: Context, w: World<Id, UserParameters, string, UserInfo, UserObservation>, id: Id, server: Server<Declaration, UserInfo>)
    requires id in w.crs
    ensures var cr, s, key := w.crs[id], SettingsOf(w.crs[id].forProvider), KeyOf(UserKind(c), w.crs[id]);
      Reconciled(UserKind(c), Persisted, w, id, server).writes != w.writes
      <==> server.reachable && !SecretMissing(c, s)
           && (key !in w.objects
               || (IsCrossplaneManaged(cr.annotations)
                   && !(PasswordAgrees(c, ResolvePassword(c, cr.forProvider.settings).value, w.objects[key])
                        && ((s.tags.GetOr([]) == []) == (w.objects[key].tags == [])))))
  {
    var cr := w.crs[id];
    var key := KeyOf(UserKind(c), cr);
    if key in w.objects {
      var late := LateInitialize(cr.forProvider, w.objects[key]);
      UpToDateIff(c, cr.forProvider, w.objects[key]);
      PasswordKept(c, cr.forProvider, w.objects[key]);
      PasswordKept(c, late, w.objects[key]);
    }
  }

  /** While the secret is missing, any number of reconciles sends nothing,
      leaves the specification alone and does not make the resource managed. */
  lemma {:induction false} MissingSecretIdle<Id>(
    c: Context, w: World<Id, UserParameters, string, UserInfo, UserObservation>, id: Id, servers: seq<Server<Declaration, UserInfo>>)
    requires id in w.crs && SecretMissing(c, SettingsOf(w.crs[id].forProvider))
    ensures var w' := ReconcileAll(UserKind(c), Persisted, w, id, servers);
      && w'.writes == w.writes && w'.objects == w.objects && id in w'.crs
      && w'.crs[id].forProvider == w.crs[id].forProvider && w'.crs[id].annotations == w.crs[id].annotations
    decreases |servers|
  {
    if servers != [] {
      SendsIff(c, w, id, servers[0]);
      MissingSecretIdle(c, Reconciled(UserKind(c), Persisted, w, id, servers[0]), id, servers[1..]);
    }
  }

  lemma SettlesUser(c: Context)
    ensures Settles(UserKind(c), StoredIn(c), p => true)
  {
    forall p, d, api | UserKind(c).settings(p) == Ok(d) && StoredIn(c)(p, d, api) ensures Settled(UserKind(c), p, api) {
      NoDriftAfterWrite(c, p.settings, api);
      UpToDateIff(c, p, api);
    }
  }

  lemma StaysSettledUser(c: Context, api: UserInfo)
    ensures StaysSettled(UserKind(c), Persisted, api)
  {
    forall p | Settled(UserKind(c), p, api) ensures Settled(UserKind(c), Persisted(LateInitialize(p, api)), api) {
      var q := LateInitialize(p, api);
      PasswordKept(c, p, api);
      PasswordKept(c, q, api);
      UpToDateIff(c, p, api);
      UpToDateIff(c, Persisted(q), api);
    }
  }

  /** One successful Create or Update, then silence. */
  lemma UserConverges<Id>(c: Context, w: World<Id, UserParameters, string, UserInfo, UserObservation>, id: Id,
                         server: Server<Declaration, UserInfo>, servers: seq<Server<Declaration, UserInfo>>)
    requires id in w.crs && Wrote(UserKind(c), Persisted, w, id, server)
    requires var p := Declared(UserKind(c), Persisted, w, id);
      Honest(StoredIn(c), p, Generate(c, p.settings).value, server)
    ensures var w1 := Reconciled(UserKind(c), Persisted, w, id, server);
      var w2 := ReconcileAll(UserKind(c), Persisted, w1, id, servers);
      w2.writes == w1.writes && w2.objects == w1.objects
  {
    KeyStableUser(c);
    SettlesUser(c);
    forall api ensures StaysSettled(UserKind(c), Persisted, api) { StaysSettledUser(c, api); }
    Converges(UserKind(c), Persisted, StoredIn(c), p => true, w, id, server, servers);
  }

  /** An edit from one non-empty list of tags to another never reaches the
      broker: the next observation puts the broker's tags back and sends nothing. */
  lemma TagEditUndone<Id>(c: Context, w: World<Id, UserParameters, string, UserInfo, UserObservation>, id: Id,
                          api: UserInfo, tags: seq<string>, server: Server<Declaration, UserInfo>)
    requires Holds(UserKind(c), w, id, api) && Settled(UserKind(c), w.crs[id].forProvider, api)
    requires w.crs[id].forProvider.settings.Some? && api.tags != [] && tags != [] && server.reachable
    ensures var s := w.crs[id].forProvider.settings.value;
      var p := w.crs[id].forProvider.(settings := Some(s.(tags := Some(tags))));
      var edit: Step<Id, UserParameters, Declaration, UserInfo, UserObservation> := Edit(id, p);
      && Legal(UserKind(c), w, edit)
      && var after := Reconciled(UserKind(c), Persisted, Next(UserKind(c), Persisted, w, edit), id, server);
         after.writes == w.writes && after.objects == w.objects
         && SettingsOf(after.crs[id].forProvider).tags == Some(api.tags)
  {
    var s := w.crs[id].forProvider.settings.value;
    var p := w.crs[id].forProvider.(settings := Some(s.(tags := Some(tags))));
    UpToDateIff(c, w.crs[id].forProvider, api);
    UpToDateIff(c, p, api);
  }
}
