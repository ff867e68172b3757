/** The queue controller: late initialisation fills every unset field. */
module Queues {
  import opened Wrappers
  import opened Arguments
  import opened Controller
  import opened Topology

  type QueueParameters = ObjectParameters
  type QueueInfo = ObjectInfo

  const QUEUE := Profile("", true)

  function QueueKind(): Kind<QueueParameters, ObjectKey, QueueInfo, Declaration, ObjectStatus> {
    KindOf(QUEUE)
  }

  function Initialized(p: QueueParameters, api: QueueInfo): QueueParameters {
    LateInitialize(QUEUE, p, api)
  }

  /** Where queues are created, updated, deleted and looked for, and what is
      declared: an unset type as the empty string. */
  lemma QueueActs(cr: CrState<QueueParameters, ObjectStatus>, objects: map<ObjectKey, QueueInfo>, server: Server<Declaration, QueueInfo>)
    returns (d: Declaration)
    ensures Declares(cr.forProvider.settings, "", d)
    ensures var name := if cr.forProvider.name.Some? then cr.forProvider.name.value else cr.name;
      ActsAt(QueueKind(), cr, objects, server, (cr.forProvider.vhost, name), name, Ok(d))
  {
    d := ObjectActs(QUEUE, cr, objects, server);
  }

  /** One observation is enough: a second one with the same answer changes nothing. */
  lemma LateInitializeIdempotent(p: QueueParameters, api: QueueInfo)
    ensures Initialized(Initialized(p, api), api) == Initialized(p, api)
  {}

  /** Once written back, the resource is flagged again on the next observation
      exactly when its resolved arguments are empty. */
  lemma FlaggedAgainIff(p: QueueParameters, api: QueueInfo)
    ensures var q := Persisted(Initialized(p, api));
      Initialized(q, api) != q <==> SettingsOf(Initialized(p, api)).arguments == Some(map[])
  {
    var late := Initialized(p, api);
    var q := Persisted(late);
    if SettingsOf(late).arguments == Some(map[]) {
      assert SettingsOf(q).arguments.None? && SettingsOf(Initialized(q, api)).arguments.Some?;
    } else {
      LateInitializeIdempotent(p, api);
    }
  }

  // ------------------------------------------------- a history of answers

  /** The block after a series of observations, written back after each. */
  function InitializedBy(p: QueueParameters, answers: seq<QueueInfo>): QueueParameters
    decreases |answers|
  {
    if answers == [] then p else InitializedBy(Persisted(Initialized(p, answers[0])), answers[1..])
  }

  /** The first non-empty arguments among the answers. */
  function FirstArguments(answers: seq<QueueInfo>): Option<Strings> {
    if answers == [] then None
    else if answers[0].arguments != map[] then Some(ToStrings(answers[0].arguments))
    else FirstArguments(answers[1..])
  }

  /** However the broker's answers vary, name, vhost and every set field stay;
      an unset scalar is decided by the first answer, and unset arguments by
      the first answer that has any. */
  lemma {:induction false} FirstAnswerStays(p: QueueParameters, answers: seq<QueueInfo>)
    requires Persisted(p) == p && answers != []
    ensures var q, s := InitializedBy(p, answers), SettingsOf(p);
      && Persisted(q) == q && q.name == p.name && q.vhost == p.vhost
      && q.settings == Some(ObjectSettings(
           Some(s.typ.GetOr(answers[0].typ)),
           Some(s.durable.GetOr(answers[0].durable)),
           Some(s.autoDelete.GetOr(answers[0].autoDelete)),
           if s.arguments.Some? then s.arguments else FirstArguments(answers)))
    decreases |answers|
  {
    var q := Persisted(Initialized(p, answers[0]));
    var given := answers[0].arguments;
    assert ToStrings(given).Keys == given.Keys;
    assert SettingsOf(p).arguments.None? ==> (SettingsOf(q).arguments.None? <==> given == map[]);
    if |answers| > 1 {
      FirstAnswerStays(q, answers[1..]);
    }
  }
}
