/** The exchange controller: late initialisation only allocates the settings
    block, and an unset type is declared as fanout. */
module Exchanges {
  import opened Wrappers
  import opened Pointers
  import opened Controller
  import opened Runs
  import opened Silence
  import opened Topology

  type ExchangeParameters = ObjectParameters
  type ExchangeInfo = ObjectInfo

  const DEFAULT_TYPE := "fanout"
  const EXCHANGE := Profile(DEFAULT_TYPE, false)

  function ExchangeKind(): Kind<ExchangeParameters, ObjectKey, ExchangeInfo, Declaration, ObjectStatus> {
    KindOf(EXCHANGE)
  }

  /** Where exchanges are created, updated, deleted and looked for, and what is
      declared: an unset type as fanout. */
  lemma ExchangeActs(cr: CrState<ExchangeParameters, ObjectStatus>, objects: map<ObjectKey, ExchangeInfo>, server: Server<Declaration, ExchangeInfo>)
    returns (d: Declaration)
    ensures Declares(cr.forProvider.settings, "fanout", d)
    ensures var name := if cr.forProvider.name.Some? then cr.forProvider.name.value else cr.name;
      ActsAt(ExchangeKind(), cr, objects, server, (cr.forProvider.vhost, name), name, Ok(d))
  {
    d := ObjectActs(EXCHANGE, cr, objects, server);
  }

  /** No field is filled in; a second observation changes nothing, before or
      after the resource has been written back. */
  lemma LateInitializeFillsNothing(p: ExchangeParameters, api: ExchangeInfo)
    ensures var q := LateInitialize(EXCHANGE, p, api);
      && q.name == p.name && q.vhost == p.vhost && q.settings.Some? && SettingsOf(q) == SettingsOf(p)
      && LateInitialize(EXCHANGE, q, api) == q
      && LateInitialize(EXCHANGE, Persisted(q), api) == Persisted(q)
  {}

  /** The default type is only a matter of declaration: an exchange of any type
      passes for an unset one, and is left alone for ever. */
  lemma DefaultTypeNotEnforced<Id>(
    w: World<Id, ExchangeParameters, ObjectKey, ExchangeInfo, ObjectStatus>, id: Id, api: ExchangeInfo, typ: string,
    servers: seq<Server<Declaration, ExchangeInfo>>)
    requires Holds(ExchangeKind(), w, id, api.(typ := typ)) && SettingsOf(w.crs[id].forProvider).typ.None?
    requires Settled(ExchangeKind(), w.crs[id].forProvider, api)
    ensures var w' := ReconcileAll(ExchangeKind(), Persisted, w, id, servers);
      w'.writes == w.writes && w'.objects == w.objects
  {
    var p := w.crs[id].forProvider;
    UpToDateIff(EXCHANGE, p, api);
    UpToDateIff(EXCHANGE, p, api.(typ := typ));
    KeyStableObject(EXCHANGE);
    StaysSettledObject(EXCHANGE, api.(typ := typ));
    SilentForever(ExchangeKind(), Persisted, w, id, api.(typ := typ), servers);
  }
}
