/** The vhost controller. */
module Vhosts {
  import opened Wrappers
  import opened Pointers
  import opened Controller
  import opened Runs
  import opened Silence

  type Tags = Option<seq<string>>

  datatype VhostSettings = VhostSettings(
    description: Option<string>, tags: Tags, defaultQueueType: Option<string>, tracing: Option<bool>)

  datatype VhostParameters = VhostParameters(hostName: Option<string>, settings: Option<VhostSettings>)

  /** rabbithole.VhostInfo, as far as it is read. */
  datatype VhostInfo = VhostInfo(
    name: string, description: string, tags: seq<string>, defaultQueueType: string, tracing: bool,
    messages: int, messagesReady: int, messagesUnacknowledged: int)

  datatype VhostObservation = VhostObservation(
    name: string, description: Option<string>, defaultQueueType: Option<string>,
    messages: int, messagesReady: int, messagesUnacknowledged: int)

  /** rabbithole.VhostSettings. */
  datatype Declaration = Declaration(description: string, tags: Tags, defaultQueueType: string, tracing: bool)

  const UNSET := VhostSettings(None, None, None, None)

  function SettingsOf(p: VhostParameters): VhostSettings {
    p.settings.GetOr(UNSET)
  }

  function ExternalName(name: string, p: VhostParameters): string {
    p.hostName.GetOr(name)
  }

  function Generate(settings: Option<VhostSettings>): Declaration {
    match settings
    case None => Declaration("", None, "", false)
    case Some(s) =>
      Declaration(s.description.GetOr(""), if |s.tags.GetOr([])| > 0 then s.tags else None,
                  s.defaultQueueType.GetOr(""), s.tracing.GetOr(false))
  }

  function LateInitialize(p: VhostParameters, api: VhostInfo): VhostParameters {
    var s := SettingsOf(p);
    p.(settings := Some(VhostSettings(
      Some(s.description.GetOr(api.description)),
      LateTags(s.tags, api.tags),
      Some(s.defaultQueueType.GetOr(api.defaultQueueType)),
      Some(s.tracing.GetOr(api.tracing)))))
  }

  function StatusOf(api: VhostInfo): VhostObservation {
    VhostObservation(api.name, Some(api.description), Some(api.defaultQueueType),
                     api.messages, api.messagesReady, api.messagesUnacknowledged)
  }

  predicate IsUpToDate(p: VhostParameters, api: VhostInfo) {
    match p.settings
    case None => true
    case Some(s) =>
      && Agrees(s.description, api.description)
      && Agrees(s.defaultQueueType, api.defaultQueueType)
      && Agrees(s.tracing, api.tracing)
      && SameTags(s.tags, api.tags)
  }

  /** omitempty drops an empty tag list; set pointers are kept. */
  function Persisted(p: VhostParameters): VhostParameters {
    match p.settings
    case None => p
    case Some(s) => if s.tags == Some([]) then p.(settings := Some(s.(tags := None))) else p
  }

  function VhostKind(): Kind<VhostParameters, string, VhostInfo, Declaration, VhostObservation> {
    Kind(
      (name, p) => ExternalName(name, p),
      (name, p) => ExternalName(name, p),
      (p, api) => LateInitialize(p, api),
      (p, api) => Ok(IsUpToDate(p, api)),
      (p: VhostParameters) => Ok(Generate(p.settings)),
      api => StatusOf(api))
  }

  /** The broker stores a set field as declared; it may normalise an unset
      scalar to anything, and undeclared tags become empty. */
  ghost predicate Stored(p: VhostParameters, d: Declaration, api: VhostInfo) {
    var s := SettingsOf(p);
    && (s.description.Some? ==> api.description == d.description)
    && (s.defaultQueueType.Some? ==> api.defaultQueueType == d.defaultQueueType)
    && (s.tracing.Some? ==> api.tracing == d.tracing)
    && api.tags == d.tags.GetOr([])
  }

  /** Writing a block back drops an empty list of tags and nothing else. */
  lemma OmitsEmpty(p: VhostParameters)
    ensures SettingsOf(p).tags != Some([]) ==> Persisted(p) == p
    ensures SettingsOf(p).tags == Some([]) ==> Persisted(p) == p.(settings := Some(SettingsOf(p).(tags := None)))
  {}

  // ------------------------------------------- what reaches the broker

  /** d declares set fields as they are, unset scalars as their zeros, and tags if there are any. */
  ghost predicate Declares(settings: Option<VhostSettings>, d: Declaration) {
    match settings
    case None => d == Declaration("", None, "", false)
    case Some(s) =>
      && (if s.description.Some? then d.description == s.description.value else d.description == "")
      && (if s.defaultQueueType.Some? then d.defaultQueueType == s.defaultQueueType.value else d.defaultQueueType == "")
      && (d.tracing <==> s.tracing == Some(true))
      && (if s.tags == None || s.tags == Some([]) then d.tags == None else d.tags == s.tags)
  }

  /** Every operation is on the vhost with the given host name, or else with the
      name of the resource, and on no other. */
  lemma VhostActs(cr: CrState<VhostParameters, VhostObservation>, objects: map<string, VhostInfo>, server: Server<Declaration, VhostInfo>)
    returns (d: Declaration)
    ensures Declares(cr.forProvider.settings, d)
    ensures var name := if cr.forProvider.hostName.Some? then cr.forProvider.hostName.value else cr.name;
      ActsAt(VhostKind(), cr, objects, server, name, name, Ok(d))
  {
    d := Generate(cr.forProvider.settings);
    ActsAtKey(VhostKind(), cr, objects, server);
  }

  /** A block in which nothing is set declares the same as no block. */
  lemma EmptyBlockIsNoBlock()
    ensures Generate(Some(VhostSettings(None, None, None, None))) == Generate(None)
  {}

  /** Each field of the status is that of the broker's answer. */
  lemma StatusShows(cr: CrState<VhostParameters, VhostObservation>, objects: map<string, VhostInfo>)
    requires IsCrossplaneManaged(cr.annotations) && cr.forProvider.hostName.GetOr(cr.name) in objects
    ensures var api := objects[cr.forProvider.hostName.GetOr(cr.name)];
      var status := ObserveOf(VhostKind(), cr, objects, true).0.atProvider;
      && status.Some?
      && status.value.name == api.name && status.value.description == Some(api.description)
      && status.value.defaultQueueType == Some(api.defaultQueueType) && status.value.messages == api.messages
      && status.value.messagesReady == api.messagesReady && status.value.messagesUnacknowledged == api.messagesUnacknowledged
  {}

  // ------------------------------------------------- late initialisation

  /** The block after a series of observations, written back after each. */
  function InitializedBy(p: VhostParameters, answers: seq<VhostInfo>): VhostParameters
    decreases |answers|
  {
    if answers == [] then p else InitializedBy(Persisted(LateInitialize(p, answers[0])), answers[1..])
  }

  /** However the broker's answers vary, the name and every set scalar stay and
      the first answer decides the unset ones, but set tags are those of the
      last answer that has any; unset tags stay unset. */
  lemma {:induction false} FirstScalarsLastTags(p: VhostParameters, answers: seq<VhostInfo>)
    requires Persisted(p) == p && answers != []
    ensures var q, s, t := InitializedBy(p, answers), SettingsOf(p), SettingsOf(InitializedBy(p, answers));
      && q.hostName == p.hostName && q.settings.Some? && Persisted(q) == q
      && t.description == Some(s.description.GetOr(answers[0].description))
      && t.defaultQueueType == Some(s.defaultQueueType.GetOr(answers[0].defaultQueueType))
      && t.tracing == Some(s.tracing.GetOr(answers[0].tracing))
    ensures SettingsOf(p).tags.None? || (forall i | 0 <= i < |answers| :: answers[i].tags == []) ==>
      SettingsOf(InitializedBy(p, answers)).tags == SettingsOf(p).tags
    ensures forall i | 0 <= i < |answers| && SettingsOf(p).tags.Some? && LastTagged(answers, i) ::
      SettingsOf(InitializedBy(p, answers)).tags == Some(answers[i].tags)
    decreases |answers|
  {
    var q := Persisted(LateInitialize(p, answers[0]));
    if |answers| > 1 {
      FirstScalarsLastTags(q, answers[1..]);
      forall i | 1 <= i < |answers| && LastTagged(answers, i) ensures LastTagged(answers[1..], i - 1) {
        assert answers[1..][i - 1] == answers[i];
      }
      assert LastTagged(answers, 0) ==> forall i | 0 <= i < |answers[1..]| :: answers[1..][i].tags == [];
    }
  }

  /** Answer i has tags and none after it does. */
  predicate LastTagged(answers: seq<VhostInfo>, i: nat)
    requires i < |answers|
  {
    answers[i].tags != [] && forall j | i < j < |answers| :: answers[j].tags == []
  }

  /** Observation is up to date, as far as tags go, unless one list is empty and the other is not. */
  lemma UpToDateIff(p: VhostParameters, api: VhostInfo)
    ensures var s := SettingsOf(p);
      Settled(VhostKind(), p, api)
      <==> && (s.description.Some? ==> s.description.value == api.description)
           && (s.defaultQueueType.Some? ==> s.defaultQueueType.value == api.defaultQueueType)
           && (s.tracing.Some? ==> s.tracing.value == api.tracing)
           && ((s.tags.GetOr([]) == []) == (api.tags == []))
  {
    LateTagsDifferIff(SettingsOf(p).tags, api.tags);
  }

  /** A second observation changes nothing, before or after the resource has been written back. */
  lemma LateInitializeIdempotent(p: VhostParameters, api: VhostInfo)
    ensures var q := LateInitialize(p, api);
      LateInitialize(q, api) == q && LateInitialize(Persisted(q), api) == Persisted(q)
  {}

  // ----------------------------------------------------------- ownership

  lemma KeyStableVhost()
    ensures KeyStable(VhostKind(), Persisted)
  {}

  /** Any run over vhosts that starts with none of them managed. */
  lemma VhostOwnership<Id(!new)>(
    w: World<Id, VhostParameters, string, VhostInfo, VhostObservation>,
    steps: seq<Step<Id, VhostParameters, Declaration, VhostInfo, VhostObservation>>,
    w': World<Id, VhostParameters, string, VhostInfo, VhostObservation>)
    requires w.writes == [] && forall id | id in w.crs :: !IsCrossplaneManaged(w.crs[id].annotations)
    requires Reaches(VhostKind(), Persisted, w, steps, w')
    ensures Exclusive(VhostKind(), w', w.objects)
  {
    KeyStableVhost();
    FreshStart(VhostKind(), w);
    ExclusiveOwnership(VhostKind(), Persisted, w, w.objects, steps, w');
  }

  // --------------------------------------------------------- convergence

  lemma SettlesVhost()
    ensures Settles(VhostKind(), Stored, p => true)
  {
    forall p, s, api | VhostKind().settings(p) == Ok(s) && Stored(p, s, api) ensures Settled(VhostKind(), p, api) {
      UpToDateIff(p, api);
    }
  }

  lemma StaysSettledVhost(api: VhostInfo)
    ensures StaysSettled(VhostKind(), Persisted, api)
  {
    forall p | Settled(VhostKind(), p, api) ensures Settled(VhostKind(), Persisted(LateInitialize(p, api)), api) {
      LateInitializeIdempotent(p, api);
    }
  }

  /** One successful Create or Update, then silence. */
  lemma VhostConverges<Id>(w: World<Id, VhostParameters, string, VhostInfo, VhostObservation>, id: Id,
                         server: Server<Declaration, VhostInfo>, servers: seq<Server<Declaration, VhostInfo>>)
    requires id in w.crs && Wrote(VhostKind(), Persisted, w, id, server)
    requires var p := Declared(VhostKind(), Persisted, w, id);
      Honest(Stored, p, Generate(p.settings), server)
    ensures var w1 := Reconciled(VhostKind(), Persisted, w, id, server);
      var w2 := ReconcileAll(VhostKind(), Persisted, w1, id, servers);
      w2.writes == w1.writes && w2.objects == w1.objects
  {
    KeyStableVhost();
    SettlesVhost();
    forall api ensures StaysSettled(VhostKind(), Persisted, api) { StaysSettledVhost(api); }
    Converges(VhostKind(), Persisted, Stored, p => true, w, id, server, servers);
  }

  /** An edit from one non-empty list of tags to another never reaches the
      broker: the next observation puts the broker's tags back and sends nothing. */
  lemma TagEditUndone<Id>(w: World<Id, VhostParameters, string, VhostInfo, VhostObservation>, id: Id,
                          api: VhostInfo, tags: seq<string>, server: Server<Declaration, VhostInfo>)
    requires Holds(VhostKind(), w, id, api) && Settled(VhostKind(), w.crs[id].forProvider, api)
    requires w.crs[id].forProvider.settings.Some? && api.tags != [] && tags != [] && server.reachable
    ensures var s := w.crs[id].forProvider.settings.value;
      var p := w.crs[id].forProvider.(settings := Some(s.(tags := Some(tags))));
      var edit: Step<Id, VhostParameters, Declaration, VhostInfo, VhostObservation> := Edit(id, p);
      && Legal(VhostKind(), w, edit)
      && var after := Reconciled(VhostKind(), Persisted, Next(VhostKind(), Persisted, w, edit), id, server);
         after.writes == w.writes && after.objects == w.objects
         && SettingsOf(after.crs[id].forProvider).tags == Some(api.tags)
  {
    var s := w.crs[id].forProvider.settings.value;
    var p := w.crs[id].forProvider.(settings := Some(s.(tags := Some(tags))));
    UpToDateIff(w.crs[id].forProvider, api);
    UpToDateIff(p, api);
  }
}
