/** The queue's parameters as Go lays them out: optional fields are pointers
    and maps, DeepCopy allocates new ones, and late initialisation assigns
    through the pointers of the custom resource, taking the address of fields of
    the broker's answer. What it leaves behind is the value that Queues describes. */
module QueueHeap {
  import opened Wrappers
  import opened Arguments
  import opened Controller
  import opened Topology
  import opened Queues

  class Cell<T> {
    var v: T

    constructor (v: T)
      ensures this.v == v
    {
      this.v := v;
    }
  }

  class StringMap {
    var m: Strings

    constructor ()
      ensures m == map[]
    {
      m := map[];
    }
  }

  class SettingsBlock {
    var typ: Cell?<string>
    var durable: Cell?<bool>
    var autoDelete: Cell?<bool>
    var arguments: StringMap?

    constructor ()
      ensures typ == null && durable == null && autoDelete == null && arguments == null
    {
      typ, durable, autoDelete, arguments := null, null, null, null;
    }

    function Pointers(): set<object?>
      reads this
    {
      {typ, durable, autoDelete, arguments}
    }

    function Value(): ObjectSettings
      reads this, Pointers()
    {
      ObjectSettings(Deref(typ), Deref(durable), Deref(autoDelete), if arguments == null then None else Some(arguments.m))
    }
  }

  class Parameters {
    var name: Cell?<string>
    var vhost: string
    var settings: SettingsBlock?

    constructor (name: Cell?<string>, vhost: string, settings: SettingsBlock?)
      ensures this.name == name && this.vhost == vhost && this.settings == settings
    {
      this.name, this.vhost, this.settings := name, vhost, settings;
    }

    /** Everything that hangs off the block. */
    function Footprint(): set<object?>
      reads this, settings
    {
      {this, name, settings} + (if settings == null then {} else settings.Pointers())
    }

    function Value(): QueueParameters
      reads this, settings, Footprint()
    {
      ObjectParameters(Deref(name), vhost, if settings == null then None else Some(settings.Value()))
    }
  }

  function Deref<T>(c: Cell?<T>): Option<T>
    reads c
  {
    if c == null then None else Some(c.v)
  }

  /** The broker's answer; two of its fields have their address taken. */
  class Answer {
    const name: string
    const vhost: string
    const typ: Cell<string>
    const durable: Cell<bool>
    const autoDelete: bool
    const arguments: Typed

    constructor (info: QueueInfo)
      ensures Value() == info
      ensures fresh(typ) && fresh(durable)
    {
      name, vhost, autoDelete, arguments := info.name, info.vhost, info.autoDelete, info.arguments;
      typ := new Cell(info.typ);
      durable := new Cell(info.durable);
    }

    function Value(): QueueInfo
      reads typ, durable
    {
      ObjectInfo(name, vhost, typ.v, durable.v, autoDelete, arguments)
    }
  }

  // --------------------------------------------------------------- DeepCopy

  method CopyCell<T>(c: Cell?<T>) returns (out: Cell?<T>)
    ensures Deref(out) == Deref(c)
    ensures out != null ==> fresh(out)
  {
    if c == null {
      out := null;
    } else {
      out := new Cell(c.v);
    }
  }

  method CopyMap(a: StringMap?) returns (out: StringMap?)
    ensures (out == null) == (a == null)
    ensures out != null ==> fresh(out) && out.m == a.m
  {
    if a == null {
      return null;
    }
    var copy := new StringMap();
    var rest := a.m.Keys;
    while rest != {}
      invariant rest <= a.m.Keys
      invariant copy.m == map k | k in a.m.Keys - rest :: a.m[k]
      decreases rest
    {
      var key :| key in rest;
      copy.m := copy.m[key := a.m[key]];
      rest := rest - {key};
    }
    return copy;
  }

  /** Equal in value, and sharing nothing with what existed before. */
  method DeepCopySettings(s: SettingsBlock) returns (out: SettingsBlock)
    ensures fresh(out) && fresh(out.Pointers() - {null})
    ensures out.Value() == s.Value()
  {
    out := new SettingsBlock();
    var typ := CopyCell(s.typ);
    var durable := CopyCell(s.durable);
    var autoDelete := CopyCell(s.autoDelete);
    var arguments := CopyMap(s.arguments);
    out.typ, out.durable, out.autoDelete, out.arguments := typ, durable, autoDelete, arguments;
  }

  method DeepCopy(p: Parameters) returns (out: Parameters)
    ensures fresh(out.Footprint() - {null})
    ensures out.Value() == p.Value()
  {
    var name := CopyCell(p.name);
    var settings: SettingsBlock? := null;
    if p.settings != null {
      settings := DeepCopySettings(p.settings);
    }
    out := new Parameters(name, p.vhost, settings);
  }

  // ------------------------------------------------------ late initialisation

  /** Assigns the pointers that are nil, and writes through none of them. */
  method FillInPlace(s: SettingsBlock, api: Answer)
    modifies s
    ensures s.Value() == FillSettings(old(s.Value()), api.Value())
    ensures s.typ == if old(s.typ) == null then api.typ else old(s.typ)
    ensures s.durable == if old(s.durable) == null then api.durable else old(s.durable)
    ensures s.autoDelete == old(s.autoDelete) || (old(s.autoDelete) == null && fresh(s.autoDelete))
    ensures s.arguments == old(s.arguments) || (old(s.arguments) == null && fresh(s.arguments))
  {
    if s.typ == null {
      s.typ := api.typ;
    }
    if s.autoDelete == null {
      var autoDelete := new Cell(api.autoDelete);
      s.autoDelete := autoDelete;
    }
    if s.durable == null {
      s.durable := api.durable;
    }
    if s.arguments == null {
      var arguments := new StringMap();
      var converted := ConvertInterfaceMapToStringMap(api.arguments);
      arguments.m := converted;
      s.arguments := arguments;
    }
  }

  /** Assigns to the parameter block, its settings block and nothing else. */
  method LateInitializeInPlace(p: Parameters, api: Answer)
    modifies p, p.settings
    ensures p.Value() == Initialized(old(p.Value()), api.Value())
    ensures p.settings != null && p.name == old(p.name) && (old(p.settings) != null ==> p.settings == old(p.settings))
    ensures old(p.settings) == null ==> fresh(p.settings)
  {
    if p.settings == null {
      p.settings := new SettingsBlock();
    }
    FillInPlace(p.settings, api);
  }

  /** DeepCopy, late initialisation, comparison: the flag is true exactly when
      the value of the block changed, a nil map counting as different from an
      empty one. The copy is out of reach of the assignments in between. */
  method LateInitializedFlag(p: Parameters, api: Answer) returns (flag: bool)
    modifies p, p.settings
    ensures flag <==> p.Value() != old(p.Value())
    ensures p.Value() == Initialized(old(p.Value()), api.Value())
    ensures p.settings != null && (p.settings == old(p.settings) || fresh(p.settings))
  {
    var current := DeepCopy(p);
    LateInitializeInPlace(p, api);
    flag := current.Value() != p.Value();
  }

  // ----------------------------------------------------------------- Observe

  class QueueResource {
    const name: string
    const forProvider: Parameters
    var atProvider: Option<ObjectStatus>
    var available: bool
    var annotations: Annotations

    constructor (name: string, forProvider: Parameters, annotations: Annotations)
      ensures this.name == name && this.forProvider == forProvider && this.annotations == annotations
      ensures atProvider == None && !available
    {
      this.name, this.forProvider, this.annotations := name, forProvider, annotations;
      atProvider, available := None, false;
    }

    function Snapshot(): CrState<QueueParameters, ObjectStatus>
      reads this, forProvider, forProvider.settings, forProvider.Footprint()
    {
      CrState(name, forProvider.Value(), atProvider, available, annotations)
    }
  }

  /** What the broker holds under one key: the answer, or nothing. */
  function Holding(key: ObjectKey, answer: Answer?): map<ObjectKey, QueueInfo>
    reads answer, if answer == null then {} else {answer.typ, answer.durable}
  {
    if answer == null then map[] else map[key := answer.Value()]
  }

  /** Observe on the heap does what the shared controller does on values. */
  method Observe(cr: QueueResource, answer: Answer?, reachable: bool) returns (r: Result<Observation, Failure>)
    modifies cr, cr.forProvider, cr.forProvider.settings
    ensures (cr.Snapshot(), r) ==
            ObserveOf(QueueKind(), old(cr.Snapshot()), old(Holding(KeyOf(QueueKind(), cr.Snapshot()), answer)), reachable)
  {
    if !reachable {
      return Err(GetFailed);
    }
    if answer == null {
      return Ok(Observation(false, false, false));
    }
    if !IsCrossplaneManaged(cr.annotations) {
      return Err(NotCrossplaneManaged);
    }
    var lateInitialized := LateInitializedFlag(cr.forProvider, answer);
    cr.atProvider := Some(StatusOf(answer.Value()));
    cr.available := true;
    var isUpToDate := IsUpToDate(cr.forProvider.Value(), answer.Value());
    return Ok(Observation(true, isUpToDate, lateInitialized));
  }
}
