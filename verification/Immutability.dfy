/** The validation rules of the queue parameters, read as a relation between
    the old and the new block, over runs in which users edit and the
    controller writes late-initialised fields back. */
module Immutability {
  import opened Wrappers
  import opened Arguments
  import opened Controller
  import opened Runs
  import opened Topology
  import opened Queues

  /** !has(old.f) || new.f == old.f; a new block that lacks f fails the rule. */
  predicate Immutable<T(==)>(before: Option<T>, after: Option<T>) {
    before.Some? ==> after == before
  }

  /** The rules on the settings block apply only while the block is there, before and after. */
  predicate Admitted(before: QueueParameters, after: QueueParameters) {
    && Immutable(before.name, after.name)
    && after.vhost == before.vhost
    && (before.settings.Some? && after.settings.Some? ==>
          var s, t := before.settings.value, after.settings.value;
          && Immutable(s.typ, t.typ) && Immutable(s.durable, t.durable)
          && Immutable(s.autoDelete, t.autoDelete) && Immutable(s.arguments, t.arguments))
  }

  /** A write of the controller: late initialisation against some answer. */
  ghost predicate WrittenBack(before: QueueParameters, after: QueueParameters) {
    exists api :: after == Persisted(Initialized(before, api))
  }

  ghost predicate Change(before: QueueParameters, after: QueueParameters) {
    Admitted(before, after) || WrittenBack(before, after)
  }

  ghost predicate History(h: seq<QueueParameters>) {
    h != [] && forall i | 0 <= i < |h| - 1 :: Change(h[i], h[i + 1])
  }

  function Key(name: string, p: QueueParameters): (string, string) {
    (p.vhost, ExternalName(name, p))
  }

  /** How often the key of the object on the broker changes. */
  function Moves(name: string, h: seq<QueueParameters>): nat {
    if |h| < 2 then 0
    else (if Key(name, h[0]) != Key(name, h[1]) then 1 else 0) + Moves(name, h[1..])
  }

  lemma ChangeKeepsName(p: QueueParameters, q: QueueParameters)
    requires Change(p, q)
    ensures q.vhost == p.vhost && (p.name.Some? ==> q.name == p.name)
  {}

  lemma {:induction false} NamedStays(name: string, h: seq<QueueParameters>)
    requires History(h) && h[0].name.Some?
    ensures Moves(name, h) == 0
    ensures Key(name, h[|h| - 1]) == Key(name, h[0])
  {
    if |h| >= 2 {
      ChangeKeepsName(h[0], h[1]);
      NamedStays(name, h[1..]);
    }
  }

  /** The key moves at most once in any history, and only when a name that was
      not set is set to something else than the name of the resource. */
  lemma {:induction false} KeyMovesOnce(name: string, h: seq<QueueParameters>)
    requires History(h)
    ensures Moves(name, h) <= 1
    ensures Moves(name, h) == 1 <==> Key(name, h[|h| - 1]) != Key(name, h[0])
    ensures Moves(name, h) == 1 ==>
      h[0].name.None? && h[|h| - 1].name.Some? && h[|h| - 1].name != Some(name) && h[|h| - 1].vhost == h[0].vhost
  {
    if |h| >= 2 {
      ChangeKeepsName(h[0], h[1]);
      if h[0].name.Some? {
        NamedStays(name, h);
      } else if h[1].name.Some? {
        NamedStays(name, h[1..]);
        NameStaysSet(h[1..]);
      } else {
        KeyMovesOnce(name, h[1..]);
      }
    }
  }

  lemma {:induction false} NameStaysSet(h: seq<QueueParameters>)
    requires History(h) && h[0].name.Some?
    ensures h[|h| - 1].name == h[0].name && h[|h| - 1].vhost == h[0].vhost
  {
    if |h| >= 2 {
      ChangeKeepsName(h[0], h[1]);
      NameStaysSet(h[1..]);
    }
  }

  // ------------------------------------------------ names and ownership

  type QueueWorld<Id> = World<Id, QueueParameters, ObjectKey, QueueInfo, ObjectStatus>
  type QueueStep<Id> = Step<Id, QueueParameters, Declaration, QueueInfo, ObjectStatus>

  /** The one edit that the rules admit and exclusive ownership does not survive:
      an unset name set to one whose key is foreign, owned or not there. */
  lemma AdmittedTakesIff<Id(!new)>(w: QueueWorld<Id>, foreign: map<ObjectKey, QueueInfo>, id: Id, spec: QueueParameters)
    requires id in w.crs && Admitted(w.crs[id].forProvider, spec) && Exclusive(QueueKind(), w, foreign)
    ensures var cr := w.crs[id];
      var key := (cr.forProvider.vhost, ExternalName(cr.name, spec));
      Exclusive(QueueKind(), w.(crs := w.crs[id := cr.(forProvider := spec)]), foreign)
      <==> !(&& IsCrossplaneManaged(cr.annotations) && cr.forProvider.name.None? && spec.name.Some? && spec.name != Some(cr.name)
             && (key !in w.objects || key in foreign || exists other :: Owns(QueueKind(), w, other, key)))
  {
    EditKeepsIff(QueueKind(), w, foreign, id, spec);
  }

  /** Deleting a managed queue after an admitted edit destroys a foreign one
      exactly when the edit set the unset name to the name of that queue. */
  lemma DeleteHitsForeignIff<Id(!new)>(
    w: QueueWorld<Id>, foreign: map<ObjectKey, QueueInfo>, id: Id, spec: QueueParameters, server: Server<Declaration, QueueInfo>)
    requires id in w.crs && Admitted(w.crs[id].forProvider, spec) && Exclusive(QueueKind(), w, foreign)
    requires IsCrossplaneManaged(w.crs[id].annotations) && server.reachable && server.delete
    ensures var edit: QueueStep<Id> := Edit(id, spec);
      var w' := Deleted(QueueKind(), Next(QueueKind(), Persisted, w, edit), id, server);
      (exists key :: key in foreign && key !in w'.objects)
      <==> w.crs[id].forProvider.name.None? && spec.name.Some? && (spec.vhost, spec.name.value) in foreign
  {
    var cr := w.crs[id];
    var own, key := KeyOf(QueueKind(), cr), Key(cr.name, spec);
    assert Owns(QueueKind(), w, id, own);
    var edit: QueueStep<Id> := Edit(id, spec);
    var w' := Deleted(QueueKind(), Next(QueueKind(), Persisted, w, edit), id, server);
    assert w'.objects.Keys == w.objects.Keys - {key};
  }

  // -------------------------------------------- what "immutable" amounts to

  ghost predicate BlockAlwaysThere(h: seq<QueueParameters>) {
    forall i | 0 <= i < |h| :: h[i].settings.Some?
  }

  /** Non-empty arguments stay as they are as long as the settings block stays. */
  lemma {:induction false} ArgumentsStay(h: seq<QueueParameters>)
    requires History(h) && BlockAlwaysThere(h)
    requires SettingsOf(h[0]).arguments.Some? && SettingsOf(h[0]).arguments != Some(map[])
    ensures SettingsOf(h[|h| - 1]).arguments == SettingsOf(h[0]).arguments
  {
    if |h| >= 2 {
      assert Change(h[0], h[1]);
      ArgumentsStay(h[1..]);
    }
  }

  /** A set type, durability or auto-deletion stays likewise. */
  lemma {:induction false} ScalarsStay(h: seq<QueueParameters>)
    requires History(h) && BlockAlwaysThere(h)
    ensures var s, t := SettingsOf(h[0]), SettingsOf(h[|h| - 1]);
      && (s.typ.Some? ==> t.typ == s.typ)
      && (s.durable.Some? ==> t.durable == s.durable)
      && (s.autoDelete.Some? ==> t.autoDelete == s.autoDelete)
  {
    if |h| >= 2 {
      assert Change(h[0], h[1]);
      ScalarsStay(h[1..]);
    }
  }

  /** The rules never stand in the way of setting what is unset. */
  lemma UnsetMayBeSet(p: QueueParameters, q: QueueParameters)
    requires q.vhost == p.vhost && (p.name.Some? ==> q.name == p.name)
    ensures SettingsOf(p) == ObjectSettings(None, None, None, None) || q.settings.None? ==> Admitted(p, q)
    ensures Admitted(p, p.(settings := None)) && Admitted(p.(settings := None), q)
  {}

  /** Removing the whole block is admitted, and so is bringing it back with
      other arguments: two edits change what the rules call immutable. */
  lemma TwoEditsChangeArguments(p: QueueParameters, a: Strings)
    requires p.settings.Some?
    ensures var gone := p.(settings := None);
      var back := p.(settings := Some(p.settings.value.(arguments := Some(a))));
      && Admitted(p, gone) && Admitted(gone, back)
      && History([p, gone, back])
      && (Admitted(p, back) <==> SettingsOf(p).arguments.None? || SettingsOf(p).arguments == Some(a))
  {}

  /** Empty arguments are dropped when the controller writes back, and can then be set to anything. */
  lemma EmptyArgumentsAreForgotten(p: QueueParameters, api: QueueInfo, a: Strings)
    requires SettingsOf(p).arguments == Some(map[])
    ensures var q := Persisted(Initialized(p, api));
      && q.settings.Some?
      && History([p, q, q.(settings := Some(q.settings.value.(arguments := Some(a))))])
  {
    var q := Persisted(Initialized(p, api));
    assert WrittenBack(p, q);
  }
}
