# Verification of the RabbitMQ provider

A Dafny 4.11 model of the parts of this provider that carry state, loops or encodings, with
proofs of what they promise over all inputs and all runs. `dafny verify dfyconfig.toml` checks it.

## What is modelled

**The reconcile protocol.** `Controller` is the shape that the queue, exchange, vhost, user and
permissions controllers share: Observe, Create, Update and Delete over a custom resource (a class
whose forProvider block, status and annotations are updated in place) and a broker. What differs
between them is a `Kind`, defined in `Topology` for queues and exchanges, whose particulars are in
`Queues` and `Exchanges`, and in `Vhosts`, `Users` and `PermissionSets`. `Runs` puts any number of
resources of one kind together, proves exclusive ownership over every run with fixed keys, and says
which edits of a key break it; `Silence` proves convergence, or its failure, over every number of
later reconciles.
`QueueHeap` lays the queue's parameters out as pointers and maps and proves that its Observe, with
DeepCopy and assignments through pointers, does what `Controller` does on values. `Immutability`
reads the validation rules as a relation between the old and the new block.

**The binding controller** (`Bindings`, `BindingId`) differs: its identity is a string, so it has
operations, runs and an invariant of its own. `Neighbours` puts any number of binding resources on
one broker.

**The codecs** underneath: `Decimal` and `Arguments` (strings to typed arguments and back),
`CanonicalJson` (map equality on JSON text), `Splitting` and `BindingId` (slash-joined names and
percent-decoding), `Base64` and `Password` (the salted hash check).

**The source rewriter** (`Generator`): the loop that jumps its own index (`Annotations`,
`LineDeletion`), and fourteen replacements in the random order of a Go map. `Rewriting` and
`Confluence` say when rewriting passes commute, `Replacements` and `Spelling` hold the table,
`ReplacementOrder` decides for which texts the order matters, `Residue` which keys the passes leave
behind.

## What is assumed

- A broker that accepts a declaration stores every field that the specification sets as it was
  declared. It may normalise an unset scalar, and unset queue arguments, to anything; unset tags and
  unset exchange arguments become empty; a declared password is stored as a salted hash. These are
  the predicates named `Stored` and `StoredUnder`, and `Honest` or `HonestRun` asks them of the
  declarations that are sent and of no others. No such assumption enters `Runs`: ownership holds
  whatever the broker answers.
- A binding's properties key determines its routing key and arguments (`WellKeyed`). Everything else
  about the bindings on the broker may change from outside at any step.
- A reconcile is one Observe and at most one write, taken atomically; late-initialised fields are
  written back when the observation flags them, and are lost when it fails.
- What the broker answers, whether it is reachable, the order of a Go map, the secrets of the
  cluster and the two hash functions are parameters.

## Where the code does less than it seems to

Each of these is proved, with its exact condition, and `Witnesses` holds an input that meets it.

- An argument such as `"+5"` or `"07"` makes its queue or exchange be declared again on every
  reconcile, for ever (`DeclaresAgainIff`; `PlusFive`, `LeadingZero`).
- A queue whose resolved arguments are empty is flagged as late-initialised on every observation
  (`FlaggedAgainIff`; `FlaggedTwice`).
- Changing a vhost's or user's tags from one non-empty list to another is undone (`TagEditUndone`,
  `LateTagsDifferIff`; `TagsPutBack`).
- "Immutable once set" can be got round in two edits by removing the settings block
  (`TwoEditsChangeArguments`; `ArgumentsReplaced`).
- Setting the unset name of a managed queue to that of a foreign one is admitted, and deleting the
  resource then deletes the foreign queue (`AdmittedTakesIff`, `DeleteHitsForeignIff`;
  `RenamedAndDeleted`).
- In the default virtual host `/` a binding is found only under a key equal to its destination, and
  Delete removes what was found: the binding of another, while the resource's own stays
  (`StraightIff`, `DefaultVhostFindsIff`, `DefaultVhostDeletesAnother`; `DefaultVhostDeletesNeighbour`).
- Of several resources between the same endpoints at most one is managed at any time, and another
  can declare only on an empty listing (`AtMostOneManaged`, `DeclaresIff`; `SecondShutOut`).
- An undecodable Location header leaves a binding behind that blocks its own resource
  (`BadLocationOrphans`; `BadHeader`).
- Adding arguments to a binding later is admitted and, unless they are empty, meets the unconditional
  error of Update (`LaterArgumentsMeetUpdate`, `StraightUpdateMetIff`; `ArgumentAddedLater`).
- The output of the rewriter depends on the order of the map for exactly those inputs with one of
  four critical words on a surviving line (`TransformDeterministicIff`; `OrderShows`), and a large
  enough count in an annotation ends the deletion loop in a panic (`PanicIff`; `LargestCountPanics`).

## Model

| member | source | states |
|---|---|---|
| `Controller.MarkedIsManaged` | internal/rabbitmqmeta/rabbitmq_meta.go:16-27 | Setting the marker makes a resource managed, records the external name and leaves every other annotation alone |
| `Controller.MarkerDecides` | internal/rabbitmqmeta/rabbitmq_meta.go:21-27 | Without the marker, or with a value other than "true", a resource is unmanaged; setting or removing any other annotation, the external name included, makes no difference |
| `Controller.UnmarkedRefused` | internal/controller/namespaced/queue/queue.go:181-199 | With an object under its key, a resource without that marker gets the not-managed error and stays as it is |
| `Silence.UnmarkedIdle` | internal/controller/namespaced/queue/queue.go:181-278 | So any number of reconciles, and a deletion, leave both as they are, whatever the external name says |
| `Controller.Observe` | internal/controller/namespaced/vhost/vhost.go:181-215 | The new resource and the result in every case: unreachable, absent (not found, no change), present but unmanaged (error, no change), present and managed (late initialisation, status and flag, also when the comparison then fails) |
| `Controller.Create` | internal/controller/namespaced/exchange/exchange.go:221-242 | On acceptance the object is stored under the key and the resource is marked; on any error neither changes |
| `Controller.Update` | internal/controller/namespaced/vhost/vhost.go:236-253 | Redeclares under the same key, never touches the resource, and on error leaves the broker alone |
| `Controller.Delete` | internal/controller/namespaced/queue/queue.go:260-279 | Removes the object under the key and no other, or fails |
| `Runs.ReconcileKeeps` | internal/controller/namespaced/queue/queue.go:181-238 | One reconcile, whatever the broker answers, keeps ownership exclusive and foreign objects untouched |
| `Runs.DeleteKeeps` | internal/controller/namespaced/queue/queue.go:260-279 | So does one deletion |
| `Runs.DeletionIs` | internal/controller/namespaced/queue/queue.go:260-279 | A resource goes when its object is absent, or is its own and the broker removes it; nothing but that object goes |
| `Runs.ExclusiveOwnership` | internal/controller/namespaced/queue/queue.go:181-278 | In every reachable state each managed resource's key exists, no two managed resources share one, and nothing foreign was ever written, deleted or changed |
| `Runs.FreshStart` | internal/rabbitmqmeta/rabbitmq_meta.go:21-27 | With no managed resource at the start, every object on the broker counts as foreign |
| `Runs.EditKeepsIff` | internal/controller/namespaced/queue/queue.go:284-290 | An edit keeps ownership exclusive exactly when it does not point a managed resource at a key that is foreign, owned or absent |
| `Runs.AlwaysExclusiveIff` | internal/controller/namespaced/queue/queue.go:181-290 | Over any run with arbitrary edits, ownership is exclusive in every state exactly when no edit takes such a key |
| `Silence.SilentForever` | internal/controller/namespaced/vhost/vhost.go:207-214 | From a settled resource, any number of reconciles with any answers in store sends nothing and leaves the broker as it is |
| `Silence.Converges` | internal/controller/namespaced/vhost/vhost.go:217-253 | One accepted Create or Update of a good specification is followed by silence |
| `Silence.RestlessForever` | internal/controller/namespaced/queue/queue.go:207-216 | Under a broker that is honest about what is declared along the run, a specification that no answer settles is declared again on every later reconcile that reaches it |
| `Topology.UpToDateIff` | internal/controller/namespaced/exchange/exchange.go:350-365 | Whatever the broker holds, an observation is up to date exactly when no set field differs from it, and no unset arguments that late initialisation leaves alone from the empty ones |
| `Topology.SettledIff` | internal/controller/namespaced/queue/queue.go:292-365 | After a write the observation reports up to date exactly when every set argument survives the round trip |
| `Topology.ObjectConverges` | internal/controller/namespaced/queue/queue.go:218-258 | A successful Create or Update of such a queue or exchange is followed by silence for ever |
| `Topology.DeclaresAgainIff` | internal/controller/namespaced/exchange/exchange.go:221-265 | After a write, every later reconcile that reaches the broker declares again if some set argument does not survive, and none does otherwise, however unset fields are normalised |
| `Topology.ObjectOwnership` | internal/controller/namespaced/exchange/exchange.go:181-286 | Exclusive ownership for every run over queues or over exchanges |
| `Topology.StatusShows` | internal/controller/namespaced/exchange/exchange.go:335-348 | Each field of the status is that of the broker's answer, arguments as they are printed |
| `Topology.EmptyBlockIsNoBlock` | internal/controller/namespaced/exchange/exchange.go:309-333 | A block in which nothing is set declares the same as no block |
| `Queues.QueueActs` | internal/controller/namespaced/queue/queue.go:218-310 | Create and Update declare set fields as they are, integers as integers and unset fields as "", false and nothing, under the vhost and the given or else the resource's name; Observe and Delete act there and nowhere else |
| `Exchanges.ExchangeActs` | internal/controller/namespaced/exchange/exchange.go:221-333 | The same for exchanges, an unset type being declared as fanout |
| `Queues.FirstAnswerStays` | internal/controller/namespaced/queue/queue.go:312-332 | Over any series of observations name, vhost and set fields stay, the first answer decides unset scalars, and the first answer that has any decides unset arguments |
| `Queues.LateInitializeIdempotent` | internal/controller/namespaced/queue/queue.go:312-332 | A second observation with the same answer changes nothing |
| `Queues.FlaggedAgainIff` | apis/namespaced/core/v1alpha1/queue_types.go:45-50 | After write-back, which drops empty maps, the next observation is flagged exactly when the resolved arguments are empty |
| `QueueHeap.CopyMap` | apis/namespaced/core/v1alpha1/zz_generated.deepcopy.go:597-603 | A nil map stays nil; any other is copied entry by entry into a new one |
| `QueueHeap.DeepCopySettings` | apis/namespaced/core/v1alpha1/zz_generated.deepcopy.go:580-604 | The copy has the same value and is fresh down to every pointer |
| `QueueHeap.DeepCopy` | apis/namespaced/core/v1alpha1/zz_generated.deepcopy.go:555-577 | So is the copy of the whole parameter block |
| `QueueHeap.FillInPlace` | internal/controller/namespaced/queue/queue.go:319-331 | Nil pointers are assigned, two of them to fields of the answer; set pointers stay, nothing is written through them |
| `QueueHeap.LateInitializeInPlace` | internal/controller/namespaced/queue/queue.go:312-332 | The value left behind is that of late initialisation on values; an existing settings block is reused |
| `QueueHeap.LateInitializedFlag` | internal/controller/namespaced/queue/queue.go:200-202 | The flag is true exactly when the value of the block changed, nil and empty maps being different |
| `QueueHeap.Observe` | internal/controller/namespaced/queue/queue.go:181-216 | On the heap Observe does in every case what the shared controller does on values |
| `Exchanges.LateInitializeFillsNothing` | internal/controller/namespaced/exchange/exchange.go:300-307 | Only the settings block is allocated; a second observation changes nothing, before or after write-back |
| `Exchanges.DefaultTypeNotEnforced` | internal/controller/namespaced/exchange/exchange.go:309-365 | The default type is only declared: an exchange of any type passes for an unset one and is left alone for ever |
| `Pointers.SameTagsIff` | internal/controller/namespaced/vhost/vhost.go:355-357 | Tag lists agree when they are equal or there are none on either side |
| `Pointers.LateTagsKeptIff` | internal/controller/namespaced/vhost/vhost.go:338-341 | Set tags are kept exactly when the broker's list is empty or equal |
| `Pointers.LateTagsDifferIff` | internal/controller/namespaced/vhost/vhost.go:338-357 | Afterwards the comparison fails exactly when one list is empty and the other is not |
| `Vhosts.FirstScalarsLastTags` | internal/controller/namespaced/vhost/vhost.go:322-342 | Over any series of observations set scalars stay and the first answer decides unset ones, but set tags become those of the last answer that has any |
| `Vhosts.VhostActs` | internal/controller/namespaced/vhost/vhost.go:181-320 | Every operation is on the vhost with the given host name, or else with the name of the resource, and on no other; unset scalars are declared as their zeros |
| `Vhosts.StatusShows` | internal/controller/namespaced/vhost/vhost.go:286-299 | Each field of the status is that of the broker's answer |
| `Vhosts.LateInitializeIdempotent` | internal/controller/namespaced/vhost/vhost.go:322-342 | A second observation changes nothing, before or after write-back |
| `Vhosts.UpToDateIff` | internal/controller/namespaced/vhost/vhost.go:322-360 | An observation is up to date exactly when the set scalars agree and the tag lists are both empty or both not |
| `Vhosts.VhostConverges` | internal/controller/namespaced/vhost/vhost.go:217-253 | A successful write of any vhost is followed by silence |
| `Vhosts.TagEditUndone` | internal/controller/namespaced/vhost/vhost.go:200-214 | An edit between non-empty tag lists is replaced by the broker's tags, and nothing is sent |
| `Vhosts.VhostOwnership` | internal/controller/namespaced/vhost/vhost.go:181-271 | Exclusive ownership for every run over vhosts |
| `Users.SendsIff` | internal/controller/namespaced/user/user.go:190-355 | A reconcile sends something exactly when the broker answers, no secret is missing, and the user is absent, or managed with another password or with tags on one side only |
| `Users.UserActs` | internal/controller/namespaced/user/user.go:230-370 | Every operation is on the user with the given name, or else with the name of the resource, and on no other; the resolved password is declared unless it is empty, and nothing is when the secret is missing |
| `Users.PasswordComesFrom` | internal/controller/namespaced/user/user.go:329-355 | A direct password wins whatever the secrets hold, then comes the secret that is named, and with neither the password is empty |
| `Users.StatusShows` | internal/controller/namespaced/user/user.go:385-398 | Each field of the status is that of the broker's answer |
| `Users.NothingToCompare` | internal/controller/namespaced/user/user.go:400-412 | Without a password, a stored hash or a known hash function nothing counts as drift |
| `Users.MissingSecretIdle` | internal/controller/namespaced/user/user.go:230-263 | While the secret or its key is missing, any number of reconciles sends nothing and changes neither specification nor ownership |
| `Users.NoDriftAfterWrite` | internal/controller/namespaced/user/user.go:267-298 | What the broker stored for a declaration never counts as password drift |
| `Users.DriftSeenIff` | internal/controller/namespaced/user/user.go:400-452 | Under either hash function a new password is reported exactly when its salted hash differs from the stored one |
| `Users.LateInitializeIdempotent` | internal/controller/namespaced/user/user.go:372-383 | Only tags can change, and a second observation changes nothing, before or after write-back |
| `Users.UpToDateIff` | internal/controller/namespaced/user/user.go:400-419 | An observation is up to date exactly when the password resolves and agrees and the tag lists are both empty or both not |
| `Users.UserConverges` | internal/controller/namespaced/user/user.go:230-298 | A successful write of any user is followed by silence |
| `Users.TagEditUndone` | internal/controller/namespaced/user/user.go:209-227 | An edit between non-empty tag lists is replaced by the broker's tags, and nothing is sent |
| `Users.UserOwnership` | internal/controller/namespaced/user/user.go:190-315 | Exclusive ownership for every run over users |
| `PermissionSets.LateInitializeIdempotent` | internal/controller/namespaced/permissions/permissions.go:299-306 | A set block is kept, a missing one becomes empty, so the comparison never meets nil; a second observation changes nothing |
| `PermissionSets.AbsentBlockIdle` | internal/controller/namespaced/permissions/permissions.go:337-343 | Without a block and without an object on the broker, reconciling changes nothing, however often |
| `PermissionSets.PermissionActs` | internal/controller/namespaced/permissions/permissions.go:221-347 | Every operation is on the permissions of the user in the vhost and on no others; the three patterns are declared each in its place, and without a block nothing is |
| `PermissionSets.StatusShows` | internal/controller/namespaced/permissions/permissions.go:308-321 | Each field of the status is that of the broker's answer |
| `PermissionSets.RepairsIff` | internal/controller/namespaced/permissions/permissions.go:299-343 | One reconcile of a managed resource sends something exactly when the patterns on the broker are not the wanted ones, which it then has; a missing block wants the empty ones |
| `PermissionSets.PermissionConverges` | internal/controller/namespaced/permissions/permissions.go:221-270 | A successful write is followed by silence |
| `PermissionSets.PermissionOwnership` | internal/controller/namespaced/permissions/permissions.go:184-293 | Exclusive ownership for every run over permissions |
| `Immutability.KeyMovesOnce` | apis/namespaced/core/v1alpha1/queue_types.go:31-37 | In any history of admitted edits and write-backs the key moves at most once, and only when an unset name is set |
| `Immutability.AdmittedTakesIff` | apis/namespaced/core/v1alpha1/queue_types.go:31-37 | The one admitted edit that breaks exclusive ownership sets the unset name of a managed queue to one whose key is foreign, owned or absent |
| `Immutability.DeleteHitsForeignIff` | internal/controller/namespaced/queue/queue.go:260-290 | Deleting a managed queue after an admitted edit removes a foreign queue exactly when the edit set the unset name to its name |
| `Immutability.ArgumentsStay` | apis/namespaced/core/v1alpha1/queue_types.go:44-50 | Non-empty arguments never change while the settings block is there |
| `Immutability.ScalarsStay` | apis/namespaced/core/v1alpha1/queue_types.go:41-43 | A set type, durability or auto-deletion is constant while the settings block is there |
| `Immutability.UnsetMayBeSet` | apis/namespaced/core/v1alpha1/queue_types.go:31-44 | The rules never stand in the way of setting what is unset |
| `Immutability.TwoEditsChangeArguments` | apis/namespaced/core/v1alpha1/queue_types.go:41-50 | Removing the block and bringing it back changes them to anything, which one edit is not allowed to |
| `Immutability.EmptyArgumentsAreForgotten` | apis/namespaced/core/v1alpha1/queue_types.go:44-50 | Empty arguments are dropped by write-back and can then be set to anything |
| `Bindings.GetBinding` | internal/controller/namespaced/binding/binding.go:362-382 | The search loop returns the first listed binding with the endpoints and the key of the external name, or none |
| `Bindings.Observe` | internal/controller/namespaced/binding/binding.go:183-234 | Resource and result in every case; the late-initialised flag is always false |
| `Bindings.Create` | internal/controller/namespaced/binding/binding.go:236-267 | The binding is declared; the name is stored unless the header cannot be decoded |
| `Bindings.Delete` | internal/controller/namespaced/binding/binding.go:273-293 | Removes the bindings with the endpoints and the key in the status |
| `Bindings.CreateMakes` | internal/controller/namespaced/binding/binding.go:236-308 | An accepted Create declares one binding with the specified endpoints, routing key and arguments, integers as integers, and stores vhost, source, type, destination and decoded key joined by slashes |
| `Bindings.UnmarkedRefused` | internal/controller/namespaced/binding/binding.go:189-204 | A resource without the marker gets the not-managed error while anything is listed |
| `Bindings.ListingMembers` | internal/controller/namespaced/binding/binding.go:349-360 | Listed are the bindings of the vhost, for a queue or an exchange those between the endpoints |
| `Bindings.UpToDateIff` | internal/controller/namespaced/binding/binding.go:327-347 | A binding is up to date exactly when all fields agree and its arguments print as the specified ones |
| `Bindings.StatusShows` | internal/controller/namespaced/binding/binding.go:310-325 | Each field of the status is that of the binding that was found |
| `Bindings.NarrowAndFullAgreeIff` | internal/controller/namespaced/binding/binding.go:189-234 | Observing a narrow or the full listing, in any order, agrees exactly when the resource is managed or both listings are empty or neither is |
| `Bindings.NarrowInOrderAgreesIff` | internal/controller/namespaced/binding/binding.go:349-382 | The same for a narrow listing in the order of the full one, without assuming that keys identify bindings |
| `Bindings.SameBindingIff` | internal/controller/namespaced/binding/binding.go:298-308 | Two specifications declare the same binding exactly when endpoints and routing key agree and their arguments have the same round trip |
| `Bindings.StraightIff` | internal/controller/namespaced/binding/binding.go:362-386 | The slot of the stored name holds the key: with slash-free fields exactly when the key has no slash, in the default virtual host exactly when it is the destination |
| `Bindings.FindsIff` | internal/controller/namespaced/binding/binding.go:362-382 | What a managed resource finds is the one binding on the broker with its endpoints and the key in the slot |
| `Bindings.FoundIsDeclaredIff` | internal/controller/namespaced/binding/binding.go:362-386 | It is the binding it declared exactly when the slot holds the key |
| `Bindings.OwnUpToDateIff` | internal/controller/namespaced/binding/binding.go:327-347 | A declared binding is up to date exactly when its arguments survive the round trip |
| `Bindings.UpdateMetIff` | internal/controller/namespaced/binding/binding.go:183-271 | In every reachable state, with arbitrary changes from outside and all admitted edits, Update is met exactly when the binding in the slot is there with another routing key or arguments that print differently |
| `Bindings.StraightUpdateMetIff` | internal/controller/namespaced/binding/binding.go:183-271 | If the slot holds the key: exactly when the declared binding is there and its arguments have not survived, or were added later and are not empty |
| `Bindings.UpdateUnreachable` | internal/controller/namespaced/binding/binding.go:269-271 | So with such keys, arguments that survive, and none added while managed, the error of Update is met in no reachable state |
| `Bindings.CreateThenObserve` | internal/controller/namespaced/binding/binding.go:236-267 | The observation after Create finds the binding if the slot holds its key, up to date exactly when the arguments survive, and otherwise finds something exactly when another binding has the key in the slot |
| `Bindings.LaterArgumentsMeetUpdate` | apis/namespaced/core/v1alpha1/binding_types.go:31-43 | Setting arguments later is admitted, and makes a found binding out of date exactly when they are not empty |
| `Bindings.DeletesFound` | internal/controller/namespaced/binding/binding.go:273-293 | After an observation that found something, Delete removes that and nothing else; it was the own binding exactly when the slot held its key |
| `Bindings.DeletesExactly` | internal/controller/namespaced/binding/binding.go:212-219 | With slash-free fields and key, Delete removes exactly the binding that Create made |
| `Bindings.DefaultVhostDeletesAnother` | internal/controller/namespaced/binding/binding.go:273-293 | In the default virtual host it removes the binding whose key is the destination, and the own one stays unless it has that key |
| `Neighbours.AtMostOneManaged` | internal/controller/namespaced/binding/binding.go:196-204 | With any number of resources, in every reachable state at most one of those between the same endpoints is managed, if nobody else removes bindings |
| `Neighbours.DeletionIs` | internal/controller/namespaced/binding/binding.go:183-293 | A binding resource goes when it may look and finds nothing, or when what it finds is removed, and no other resource changes |
| `Neighbours.DeclaresIff` | internal/controller/namespaced/binding/binding.go:196-204 | Over any run an unmanaged resource sends a declaration exactly when one of its reconciles reaches the broker and meets an empty listing |
| `Neighbours.NeighbourBlocksCreate` | internal/controller/namespaced/binding/binding.go:196-204 | While nothing is deleted, a binding between its endpoints keeps an unmanaged resource from ever declaring |
| `Bindings.DefaultVhostFindsIff` | internal/controller/namespaced/binding/binding.go:362-386 | In the default virtual host exactly the binding whose key equals the destination is found |
| `Bindings.BadLocationOrphans` | internal/controller/namespaced/binding/binding.go:245-257 | An accepted Create makes the resource managed exactly when each percent sign in the last segment of the header has two hexadecimal digits; otherwise the binding is there all the same and any number of reconciles changes nothing |
| `BindingId.EncodesIff` | internal/controller/namespaced/binding/binding.go:252-257 | A segment decodes to a key exactly when it is a percent-encoding of it (section 2.1 of RFC 3986) |
| `BindingId.DecodesIff` | internal/controller/namespaced/binding/binding.go:252-255 | A segment decodes exactly when every percent sign is followed by two hexadecimal digits |
| `BindingId.OctetIs` | internal/controller/namespaced/binding/binding.go:252-255 | Two hexadecimal digits, in either case, stand for sixteen times the first and the second (section 2.1 of RFC 3986) |
| `BindingId.SlotOf` | internal/controller/namespaced/binding/binding.go:362-386 | The slot holds the key's first segment when the four fields are free of slashes, and otherwise a segment of one of them |
| `BindingId.KeyRecoveredIff` | internal/controller/namespaced/binding/binding.go:362-386 | With slash-free fields the key is recovered exactly when it has no slash |
| `BindingId.IdentityEndToEnd` | internal/controller/namespaced/binding/binding.go:251-260 | From the Location header to the key found again, the same condition |
| `BindingId.DefaultVhostLosesKey` | internal/controller/namespaced/binding/binding.go:364-372 | In the default virtual host the slot holds the destination |
| `Splitting.SplitJoin` | internal/controller/namespaced/binding/binding.go:365-386 | Joining separator-free parts and splitting again gives the parts |
| `Splitting.JoinSplit` | hack/generate-cluster-scope.go:178-195 | Splitting and joining again gives the text |
| `Decimal.AtoiPrint` | internal/rabbitmqclient/utilities.go:65-66 | Every 64-bit integer survives being printed and read, anything larger is refused |
| `Decimal.PrintAtoi` | internal/rabbitmqclient/utilities.go:65-81 | A numeral survives being read and printed exactly when it has no plus sign, leading zero or minus zero |
| `Decimal.InRangeIff` | Makefile:7 | The integers are those of 64 bits |
| `Decimal.ValueIs` | internal/rabbitmqclient/utilities.go:65-66 | Appending a digit multiplies by ten and adds it, a minus sign negates, a plus sign does nothing, a sign alone is no numeral |
| `Arguments.ConvertStringMapToInterfaceMap` | internal/rabbitmqclient/utilities.go:62-72 | The loop, in any order of the keys, turns every numeral in the 64-bit range into the integer of its value and keeps every other string as a text |
| `Arguments.ConvertInterfaceMapToStringMap` | internal/rabbitmqclient/utilities.go:75-85 | The loop, in any order of the keys, prints every value |
| `Arguments.PrintedIsNumber` | internal/rabbitmqclient/utilities.go:62-72 | An integer printed into an argument reaches the broker as that integer |
| `Arguments.PrintedIs` | internal/rabbitmqclient/utilities.go:75-85 | Texts come back as they are, integers as the canonical numeral of their value, anything else as it is printed |
| `Arguments.RoundTripIff` | internal/rabbitmqclient/utilities.go:61-85 | The round trip is the identity exactly when each value is no numeral, out of the 64-bit range, or canonical |
| `Arguments.RoundTripIdempotent` | internal/rabbitmqclient/utilities.go:61-85 | A second round trip changes nothing |
| `Arguments.SameTypedIff` | internal/rabbitmqclient/utilities.go:61-85 | Two argument maps are the same to the broker exactly when they have the same round trip |
| `CanonicalJson.BodyIsPlain` | internal/rabbitmqclient/utilities.go:92-96 | An escaped string holds no control character, HTML character or line separator |
| `CanonicalJson.ReadBody` | internal/rabbitmqclient/utilities.go:92-96 | An escaped string is read back, with what follows it |
| `CanonicalJson.SortUnique` | internal/rabbitmqclient/utilities.go:92-96 | There is one sorted list of keys |
| `CanonicalJson.MarshalInjective` | internal/rabbitmqclient/utilities.go:92-100 | Maps with the same text are the same |
| `CanonicalJson.MapsEqualJSONIff` | internal/rabbitmqclient/utilities.go:87-101 | The texts are equal exactly when the second map is not nil and the maps are equal, a nil first map read as empty |
| `Base64.RoundTrip` | internal/controller/namespaced/user/user.go:422-425 | Decoding the encoding of any bytes gives them back |
| `Base64.LetterIs` | internal/controller/namespaced/user/user.go:422-425 | The alphabet is that of table 1 of RFC 4648 |
| `Base64.GroupIsNumber` | internal/controller/namespaced/user/user.go:422-425 | Three bytes and their four letters are the same 24-bit number, most significant first |
| `Base64.BreaksGo` | internal/controller/namespaced/user/user.go:422-425 | Before decoding, carriage returns and line feeds are taken out, and nothing else |
| `Base64.DecodeIff` | internal/controller/namespaced/user/user.go:422-425 | The texts that decode to given bytes are their encoding with line breaks anywhere and any spare bits |
| `Password.AcceptsIff` | internal/controller/namespaced/user/user.go:421-452 | The check accepts exactly the texts that decode to some four-byte salt and the salted hash of the password |
| `Password.AcceptsSpellingIff` | internal/controller/namespaced/user/user.go:421-452 | These are the spellings of salt and salted hash, line breaks and spare bits aside |
| `Password.AcceptsStoredIff` | internal/controller/namespaced/user/user.go:421-452 | Against the stored text of another password, exactly when the salted hashes agree |
| `Password.StoredForms` | internal/controller/namespaced/user/user.go:427-451 | The stored texts have 48 characters without and 92 with padding |
| `Generator.ProcessDeleteAnnotations` | hack/generate-cluster-scope.go:177-196 | The loop, with the wrap-around of its index, keeps the lines of the recursive specification or panics |
| `Annotations.DeleteCountIff` | hack/generate-cluster-scope.go:184-188 | A line is an annotation for n lines exactly when behind its first marker, wherever that is, there is a numeral for n and nothing else but spaces, with n positive and in range |
| `Annotations.CountedAnywhere` | hack/generate-cluster-scope.go:184-188 | In particular a printed count behind a marker anywhere in the line is that count |
| `LineDeletion.DeletesBlock` | hack/generate-cluster-scope.go:181-193 | An annotation deletes its own line and as many after it as it says, or as there are; the lines before it stay and the pass goes on behind them |
| `Generator.DeletesBlockOfText` | hack/generate-cluster-scope.go:177-196 | The same for the text, line by line |
| `LineDeletion.KeptLines` | hack/generate-cluster-scope.go:181-193 | The kept lines are a subsequence of the lines and hold no valid annotation |
| `Generator.DeleteIdempotent` | hack/generate-cluster-scope.go:177-196 | A second pass changes nothing |
| `LineDeletion.PanicIff` | hack/generate-cluster-scope.go:181-188 | The loop panics exactly when it stops at a line whose count carries the index past the largest int |
| `Generator.SmallCountsSuffice` | hack/generate-cluster-scope.go:181-188 | Counts that leave room for the number of lines never panic |
| `Generator.AddGenerationComment` | hack/generate-cluster-scope.go:209-221 | Two lines are inserted before the first package line, and nothing without one |
| `Generator.PackageLineIff` | hack/generate-cluster-scope.go:212 | A package line begins, spaces aside, with "package " and goes on with something that is not a space |
| `Generator.CommentedIs` | hack/generate-cluster-scope.go:209-221 | The comment and an empty line stand directly before the first package line; without one nothing changes |
| `Generator.PreparedIs` | hack/generate-cluster-scope.go:198-204 | The replacements start from the kept lines with the comment before the first package line among them |
| `Generator.TransformContent` | hack/generate-cluster-scope.go:198-207 | Deletion, comment, then the passes in the given order |
| `Generator.TransformDeterministicIff` | hack/generate-cluster-scope.go:198-207 | The output is the same for all orders exactly when no surviving line holds a critical word |
| `Spelling.Spelled` | hack/generate-cluster-scope.go:223-240 | The table, taken apart into pieces for the proofs, is the table of the source |
| `Rewriting.ReplaceFirst` | hack/generate-cluster-scope.go:202-204 | Up to the first key nothing changes, the key becomes the value, and the pass goes on behind it |
| `Rewriting.ReplaceNone` | hack/generate-cluster-scope.go:202-204 | Without the key nothing changes |
| `Confluence.Commutes` | hack/generate-cluster-scope.go:202-204 | Two orthogonal rules, also rules that share a kept character, commute on every text without their clash words |
| `Confluence.CommutesIff` | hack/generate-cluster-scope.go:202-204 | And on no other |
| `Confluence.OrderIrrelevantIff` | hack/generate-cluster-scope.go:202-204 | For a whole system of rules all orders agree exactly on the texts without clash words |
| `ReplacementOrder.AllSystem` | hack/generate-cluster-scope.go:223-240 | The fourteen rules are such a system |
| `ReplacementOrder.ReplacementOrderIrrelevantIff` | hack/generate-cluster-scope.go:202-240 | All orders of the fourteen passes give the same text exactly when it holds none of the four critical words |
| `Residue.LeftByPass` | hack/generate-cluster-scope.go:202-204 | One pass leaves its own key behind exactly when the text holds the word in which it does |
| `Residue.KeyLeftIff` | hack/generate-cluster-scope.go:202-240 | So do all passes together, in any order |
| `Residue.RerunIdleIff` | hack/generate-cluster-scope.go:202-240 | Running the passes again, in any order, changes nothing exactly when no such word was there |
| `Witnesses.PlusFive` | internal/rabbitmqclient/utilities.go:61-72 | The argument "+5" comes back as "5" |
| `Witnesses.TimeToLive` | internal/rabbitmqclient/utilities.go:61-72 | The argument "300" reaches the broker as the integer 300 |
| `Witnesses.DefaultVhostDeletesNeighbour` | internal/controller/namespaced/binding/binding.go:273-293 | A concrete pair of bindings in "/" of which Delete removes the wrong one |
| `Witnesses.RenamedAndDeleted` | internal/controller/namespaced/queue/queue.go:260-290 | A concrete admitted rename after which Delete removes a foreign queue |
| `Witnesses.LargestCountPanics` | hack/generate-cluster-scope.go:181-188 | A line whose count ends the deletion loop in a panic |
| `Witnesses.DeletesNextLine` | hack/generate-cluster-scope.go:177-196 | A marker within a comment line deletes that line and the next |
| `Witnesses.OrderShows` | hack/generate-cluster-scope.go:202-240 | A text that two orders of the replacements turn into different ones |

## Left out

- The cluster-scoped controllers, which repeat the namespaced ones below Connect.
- Connect, credentials, HTTP, the client library and its JSON decoding of broker answers: an answer is
  a typed value, and an argument that is neither an integer nor a string is known by what `%v` prints.
- The Crossplane reconciler beyond one Observe and at most one write: finalizers, requeueing and the
  gap between a deletion and the removal of its resource.
- The pointer layout of the exchange, vhost, user and permissions parameters: their late
  initialisation is modelled on values, so sharing between a block and its copy is not captured there.
- Strings that are not valid UTF-8, which json.Marshal would replace: keys and values are sequences
  of Unicode scalar values in `CanonicalJson`, and octets in `BindingId`.
- SHA-256 and SHA-512, which are parameters.
- Status conditions other than availability, logging, error texts and connection details.
- The settings that `Controller.Create` and `Controller.Update` send are those of each kind; the
  nil dereference in the permissions controller is an error value here instead of a crash.
- File walking, renaming and gofmt in the generator.
