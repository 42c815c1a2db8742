# platformer-client core, in Dafny

This project models the client-side core of the `platformer-client` game:

- the entity/component **registry** (`src/core/ECS.ts`): live entities, per-type
  component storage, the query view and its `each`;
- the **position interpolation buffer** (`src/core/game/component/Position.ts`):
  a bounded, time-ordered window of position samples and the lookup that
  interpolates between them;
- the **server packet handlers** (`src/core/Packet.ts`): the state handler that
  reconciles the registry with the server's entity list, the id handler, and
  the opcode/handler tables;
- the **event queue** (`src/core/Event.ts`), the **keyboard input** state
  (`src/core/Input.ts`), the array helpers `filterSome` and `equals`
  (`src/core/util/Common.ts`) and the **settings store** (`src/core/util/Config.ts`).

Each source file is one module (`ECS`, `Position`, `Packet`, `Event`, `Input`,
`Common`, `Config`; `Wrappers` holds `Option`, `Result` and `Outcome`). Objects
whose fields the source updates in place are classes (`ECS.Registry`,
`Position.PositionBuffer`, `Event.EventQueue`, `Input.Input`, `Common.JsArray`,
`Config.ConfigStore`). Their methods keep the source's loops and are proved
equal to pure specification functions. The properties are then proved about
those functions as lemmas. An exception the source throws becomes a returned
`Fail`/`Err` value that leaves the state unchanged.

Callbacks (event listeners, key callbacks, the `each` callback) are opaque
values. The methods that call them return the sequence of calls they make, in
order.

## Model

| member | source | states |
|---|---|---|
| ECS.Added | src/core/ECS.ts:76 | `Set.add` keeps exactly the old members plus the new one, and keeps the set duplicate-free |
| ECS.Without | src/core/ECS.ts:90 | `Set.delete` keeps exactly the other members in order, removes one element when present, and changes nothing when absent |
| ECS.WithoutConcat | src/core/ECS.ts:90 | deleting from a concatenation deletes from each part, so the live set keeps its insertion order |
| ECS.DistinctCard | src/core/ECS.ts:182-184 | a duplicate-free live sequence has as many elements as the set it stands for |
| ECS.Present | src/core/ECS.ts:12-13 | a type is among the types the view checks iff it is requested and has a storage map |
| ECS.GatherSpec | src/core/ECS.ts:12-19 | the per-entity type loop skips the entity iff some requested type that has storage lacks it; otherwise it yields that type's components in request order |
| ECS.GatherAllAbsent | src/core/ECS.ts:12-13 | with no storage for any requested type, every entity matches with no components |
| ECS.ViewOfConcat | src/core/ECS.ts:3-23 | the view over consecutive runs of entities is the concatenation of their views, so the view follows live-set order |
| ECS.ViewMembership | src/core/ECS.ts:3-23 | `view(types)` yields exactly the live entities that match, each with its gathered components |
| ECS.ViewAll | src/core/ECS.ts:3-23 | `view([])` yields every live entity, in order, with no components |
| ECS.ViewIgnoresUnknownTypes | src/core/ECS.ts:13 | requested types without storage do not filter: the view equals `view([])` |
| ECS.NoneAbsorbs | src/core/ECS.ts:14-17 | once a prefix of the types rules an entity out, the labelled `continue` rules it out for the whole list |
| ECS.ViewGenerator | src/core/ECS.ts:3-23 | the generator's nested loops yield exactly the specified view |
| ECS.Each | src/core/ECS.ts:53-57 | `each` calls the callback once per entry, in order, with that entry's entity and components |
| ECS.Id | src/core/ECS.ts:186-188 | the id is the low 16 bits of the 32-bit pattern: the pattern modulo 65536, so below 65536 |
| ECS.Version | src/core/ECS.ts:189-191 | the version is the high 16 bits left in place: it has no low bit set, and it and the id are disjoint halves whose union is the 32-bit pattern |
| ECS.SmallEntityHasVersionZero | src/core/ECS.ts:186-191 | every entity below 65536 has version 0 and is its own id |
| ECS.CreateTwice | src/core/ECS.ts:79-83 | two `create` calls hand out the counter and its successor, both live afterwards, with components untouched |
| ECS.CreateCanReturnLiveId | src/core/ECS.ts:79-83 | after `insert(0)` the first `create` returns 0, which is already live, and the live set does not grow |
| ECS.EmplaceThenSlot | src/core/ECS.ts:121-136 | after `emplace` the slot holds the value, the type's map exists, and no other slot and not the live set changes |
| ECS.EmplaceOrUpdateSlot | src/core/ECS.ts:138-161 | `emplace_or_update` stores the constructed value in an empty slot and the updated value in a full one; nothing else changes |
| ECS.RemoveOnlySlot | src/core/ECS.ts:166-176 | `remove` empties exactly one slot and is a no-op when the type has no storage |
| ECS.DestroyKeepsComponents | src/core/ECS.ts:89-95 | `destroy` removes the entity from the live set (one fewer if it was live) but every component survives |
| ECS.Registry.constructor | src/core/ECS.ts:66-69 | a new registry has counter 0, no entities and no storage |
| ECS.Registry.Insert | src/core/ECS.ts:71-77 | fails with a duplicate-entity error for a live id, which changes nothing; otherwise appends the id to the live set |
| ECS.Registry.Create | src/core/ECS.ts:79-83 | returns the old counter, increments it and adds the id to the live set |
| ECS.Registry.Destroy | src/core/ECS.ts:89-95 | the live set loses the id and keeps its duplicate-freedom |
| ECS.Registry.Alive | src/core/ECS.ts:85-87 | an entity is alive iff `get` succeeds for it on every type; for a dead one `get` fails with the dead-entity error |
| ECS.Registry.Get | src/core/ECS.ts:100-112 | fails exactly for a dead entity; for a live one returns null iff the slot is empty, and otherwise the stored component |
| ECS.Registry.Has | src/core/ECS.ts:114-116 | `has` holds iff the slot for the type and entity is filled; for a live entity, iff `get` returns a component rather than null |
| ECS.Registry.Emplace | src/core/ECS.ts:121-136 | fails for a dead entity with nothing changed; otherwise the store becomes `Emplaced` |
| ECS.Registry.EmplaceOrUpdate | src/core/ECS.ts:138-161 | fails for a dead entity with nothing changed; otherwise constructs or updates the slot |
| ECS.Registry.Remove | src/core/ECS.ts:166-176 | fails for a dead entity with nothing changed; otherwise empties the slot |
| ECS.Registry.View | src/core/ECS.ts:178-180 | returns the view of the current live set |
| ECS.Registry.Size | src/core/ECS.ts:182-184 | is the number of distinct live entities |
| Position.Newest | src/core/game/component/Position.ts:28-32 | the window of the last `n` samples holds `n` of them, or all when there are fewer |
| Position.PushedStale | src/core/game/component/Position.ts:21-33 | `update` leaves the buffer unchanged iff the sample is not newer than the newest; otherwise the sample becomes the newest |
| Position.PushedKeepsNewest | src/core/game/component/Position.ts:21-33 | a fresh `update` leaves the newest `capacity` samples of the old buffer plus the new one: the oldest are evicted |
| Position.PushedWellFormed | src/core/game/component/Position.ts:21-33 | `update` keeps the buffer non-empty, strictly time-ordered and within capacity, with the newest sample no older than the update |
| Position.PushedAllKeepsNewest | src/core/game/component/Position.ts:21-33 | any run of increasing updates leaves exactly the newest `capacity` samples of everything pushed |
| Position.PushedOneOfMany | src/core/game/component/Position.ts:21-33 | one update of an increasing run keeps the rest of the run increasing after it and keeps the same newest window |
| Position.PushedIsSuffix | src/core/game/component/Position.ts:28-32 | a fresh `update` leaves the old buffer plus the new sample, minus the oldest one exactly when the buffer was full |
| Position.IncreasingSuffix | src/core/game/component/Position.ts:29 | shifting the oldest samples out keeps the buffer time-ordered |
| Position.NewestOfSuffix | src/core/game/component/Position.ts:29 | shifting out samples older than the window does not change the newest window |
| Position.Advance | src/core/game/component/Position.ts:43-47 | the cursor loop stops at the first sample not older than `T`, having passed only older ones |
| Position.AIndex | src/core/game/component/Position.ts:36-47 | `A` is the last sample after the first one that is older than the clamped time, or the first sample |
| Position.ChooseReadsTwoAhead | src/core/game/component/Position.ts:49-58 | `get` interpolates between `buffer[k]` and `buffer[k + 2]` with weight `(T - A.time) / (B.time - A.time)`, and returns `A` alone when `buffer[k + 2]` does not exist |
| Position.WeightBounds | src/core/game/component/Position.ts:57 | the weight is below 1, and not negative once `A` is not newer than the render time |
| Position.FewSamplesNeverInterpolate | src/core/game/component/Position.ts:50-54 | with at most two samples `get` always returns a stored position |
| Position.AfterNewestIsNewest | src/core/game/component/Position.ts:43-54 | past the newest sample `get` returns the newest position |
| Position.ExampleBufferBuilt | src/core/game/component/Position.ts:21-33 | the three updates of the test "returns closest update" build the buffer (0,0)@0, (10,10)@100, (20,20)@200 |
| Position.ExampleLookupEarly | src/core/game/component/Position.ts:35-59 | on that buffer `get(0)` and `get(-100)` return (0,0) |
| Position.ExampleLookupLate | src/core/game/component/Position.ts:35-59 | on that buffer `get(400)` returns (20,20) |
| Position.ExampleLookupBetween | src/core/game/component/Position.ts:35-59 | on that buffer `get(50)` returns (5,5) |
| Position.StaleUpdateExample | src/core/game/component/Position.ts:21-33 | from one sample at 50, an update at 25 is dropped and one at 75 is kept |
| Position.PositionBuffer.constructor | src/core/game/component/Position.ts:14-19 | the buffer starts with exactly the initial sample and the given size (default 5) |
| Position.PositionBuffer.Update | src/core/game/component/Position.ts:21-33 | the buffer becomes `Pushed` of the old buffer and stays well formed |
| Position.PositionBuffer.Get | src/core/game/component/Position.ts:35-59 | the loop returns exactly `Lookup` of the buffer |
| Packet.Seen | src/core/Packet.ts:66-81 | the `seen` set holds exactly the ids the packet names |
| Packet.PositionCreate | src/core/Packet.ts:22-24 | a new position component is a well-formed buffer holding exactly the one sample |
| Packet.PositionUpdate | src/core/Packet.ts:25-27 | updating a well-formed buffer keeps its size and well-formedness with the newest sample no older than the update; a non-empty buffer is left unchanged iff the update is not newer than its newest sample |
| Packet.KeepIn | src/core/Packet.ts:82-88 | the entities that survive the destroy loop are exactly the live ones in `seen`, still duplicate-free |
| Packet.StepEffect | src/core/Packet.ts:68-80 | one descriptor changes only the sprite and position slots of the entity it names, adds storage only for those types and leaves the counter alone |
| Packet.AppliedEffect | src/core/Packet.ts:67-81 | the descriptor loop acts on each slot independently, by the slot's own fold over the descriptors |
| Packet.AppliedEntities | src/core/Packet.ts:67-81 | after the descriptor loop the live set is the old one plus every named id, duplicate-free, and unchanged when every named id was live |
| Packet.SpriteSlotAfterIs | src/core/Packet.ts:46-49 | a sprite is created once for an entity given components and never replaced |
| Packet.PositionSlotAfterWellFormed | src/core/Packet.ts:51-63 | the position slot stays empty or a well-formed buffer |
| Packet.PositionSlotStays | src/core/Packet.ts:51-63 | with no position-less descriptor for the entity, a buffer already at the packet time, or a packet with no position for it, keeps the slot as it is |
| Packet.PositionSlotSettles | src/core/Packet.ts:51-63 | a packet that carries a position for the entity and never drops it leaves a buffer whose newest sample is at the packet time or later |
| Packet.PositionSlotForgets | src/core/Packet.ts:58-62 | once a packet drops the entity's position, what the slot held before does not matter |
| Packet.PositionSlotIdempotent | src/core/Packet.ts:51-63 | the same packet at the same time applied twice to a position slot acts as once |
| Packet.ApplyStateLiveSet | src/core/Packet.ts:65-89 | after `handleState` the live set is exactly the named ids, duplicate-free, with the counter untouched |
| Packet.Fresh | src/core/Packet.ts:67-72 | the ids a packet makes live are named by the packet and were not live before |
| Packet.AppliedOrder | src/core/Packet.ts:67-81 | the descriptor loop appends the newly named ids to the live set, in the order the packet first names them |
| Packet.KeepInConcat | src/core/Packet.ts:82-88 | the destroy loop over a concatenation keeps the survivors of each part, in order |
| Packet.ApplyStateOrder | src/core/Packet.ts:65-89 | after `handleState` the live set is the surviving old entities in their old order, followed by the newly named ids in packet order |
| Packet.UnnamedDestroyedKeepsSlots | src/core/Packet.ts:82-88 | an entity the packet does not name is destroyed but keeps every component slot |
| Packet.LastDescriptorDecides | src/core/Packet.ts:39-89 | the last descriptor with components for an entity leaves it live with a sprite, with a position buffer iff it carries `p`, and that buffer is settled at the packet time |
| Packet.ApplyStateWellTyped | src/core/Packet.ts:39-89 | `handleState` keeps every sprite slot a sprite and every position slot a well-formed buffer |
| Packet.ApplyStateIdempotent | src/core/Packet.ts:65-89 | handling the same state packet twice at the same time leaves the registry as handling it once |
| Packet.ReinsertReusesBuffer | src/core/Packet.ts:69-72 | an entity re-inserted while its old buffer is still stored gets that buffer updated, not a new one |
| Packet.HandleComponents | src/core/Packet.ts:39-64 | fails on a dead entity with nothing changed; otherwise ensures a sprite and creates, updates or removes the position |
| Packet.ApplyDescriptors | src/core/Packet.ts:66-81 | the first loop inserts, handles components and collects `seen`, leaving `Applied` |
| Packet.DestroyUnseen | src/core/Packet.ts:82-88 | the second loop destroys exactly the live entities not seen, keeping order and components |
| Packet.HandleState | src/core/Packet.ts:65-89 | the registry becomes `ApplyState` of its old state and stays duplicate-free |
| Packet.HandleId | src/core/Packet.ts:11-13 | the id handler leaves the registry unchanged |
| Packet.GetHandler | src/core/Packet.ts:111-119 | the table has a function exactly for ID and STATE, each with its own opcode; any other opcode gets the default handler |
| Packet.ServerToString | src/core/Packet.ts:121-125 | the server `toString` gives an opcode's enum member name for each opcode value and "NULL" exactly for the numbers that are no opcode |
| Packet.ClientToString | src/core/Packet.ts:135-139 | the client `toString` gives "INPUT" for the INPUT opcode value and "NULL" exactly for the numbers that are no client opcode |
| Packet.Call | src/core/Packet.ts:105-108 | a handler without a function does nothing; the state handler applies a state payload and fails on any other |
| Event.Calls | src/core/Event.ts:13-15 | the listener loop makes one call per listener, in order, each with the event |
| Event.DeliveriesAppend | src/core/Event.ts:9-18 | delivering two queued runs one after the other is delivering their concatenation |
| Event.DeliveryMembership | src/core/Event.ts:9-18 | a call is made iff the event is queued and the listener is registered for its type |
| Event.UnheardEventSkipped | src/core/Event.ts:12 | an event whose type has no listeners adds no call |
| Event.ListenedCalledLast | src/core/Event.ts:24-32 | a new listener is called after those already registered for its type, and other types' calls do not change |
| Event.EventQueue.constructor | src/core/Event.ts:6-7 | a new queue has no events and no listeners |
| Event.EventQueue.Dispatch | src/core/Event.ts:20-22 | appends one event with the given type and detail |
| Event.EventQueue.Listen | src/core/Event.ts:24-32 | appends the callback to its type's listener array, creating it |
| Event.EventQueue.Update | src/core/Event.ts:9-18 | makes exactly the calls `Deliveries` specifies, then empties the queue and keeps the listeners |
| Input.Lower | src/core/Input.ts:32 | lower-casing keeps the length and lower-cases each letter |
| Input.LowerIsLower | src/core/Input.ts:31-45 | a lower-cased name has no upper-case letter and lower-casing is idempotent |
| Input.KeyTransitions | src/core/Input.ts:31-45 | a keydown presses exactly the keys with the same lower-cased name and a keyup releases exactly those |
| Input.Input.IsKeyPressed | src/core/Input.ts:13-15 | a key is pressed only if its lower-cased name is recorded, and, with every recorded name lower-cased, iff some key with the same lower-cased name is recorded down |
| Input.UppercaseNeverFires | src/core/Input.ts:17-45 | a callback registered under a name with an upper-case letter is never called |
| Input.RegisteredFiresLast | src/core/Input.ts:17-21 | a newly registered callback is called after the earlier ones of its key, and other keys' calls do not change |
| Input.Input.constructor | src/core/Input.ts:3-4 | a new input has no key states and no callbacks |
| Input.Input.RegisterKeyEvent | src/core/Input.ts:17-21 | appends the callback under the key exactly as given |
| Input.Input.OnKeyChange | src/core/Input.ts:23-29 | makes exactly the calls `KeyCalls` specifies |
| Input.Input.OnKeydown | src/core/Input.ts:31-37 | a key already down changes nothing and calls nothing; otherwise it is marked down and its callbacks get `true` |
| Input.Input.OnKeyup | src/core/Input.ts:39-45 | a key not down changes nothing and calls nothing; otherwise it is marked up and its callbacks get `false` |
| Common.TopFilteredShape | src/core/util/Common.ts:15-25 | `filterSome` leaves a prefix untouched and, above it, drops exactly the failing elements: `removeMax` of them when there are that many and it is not negative, every one otherwise |
| Common.Stop | src/core/util/Common.ts:15-25 | the index where the scan stops, with the prefix/passing split and the number removed |
| Common.PrefixFacts | src/core/util/Common.ts:18-20 | counting failing and passing elements below the top is the same on the array and its prefix |
| Common.PrefixAgrees | src/core/util/Common.ts:18-20 | counting failing and passing elements depends only on the elements counted |
| Common.PassingKept | src/core/util/Common.ts:20 | every element that passes the callback is still in the result |
| Common.PassingHas | src/core/util/Common.ts:20 | a passing element is among the passing elements of any range holding it |
| Common.JsArray.FilterSome | src/core/util/Common.ts:15-25 | the array is spliced in place to `TopFiltered` of its old elements and returned |
| Common.SameFromIff | src/core/util/Common.ts:31-33 | the element loop finds no mismatch iff the remaining elements are equal |
| Common.Equals | src/core/util/Common.ts:26-35 | `equals` holds iff the other array is not null and has the same elements |
| Common.EqualsReflexiveSymmetric | src/core/util/Common.ts:26-35 | `equals` is reflexive and symmetric |
| Config.Split | src/core/util/Config.ts:50 | `split(".")` always gives at least one part |
| Config.SplitJoin | src/core/util/Config.ts:50 | joining the parts of a split key with "." gives the key back |
| Config.SplitParts | src/core/util/Config.ts:50-51 | no part of a split key has a ".", and there is more than one part iff the key has a "." |
| Config.JoinSplit | src/core/util/Config.ts:50 | splitting a join of dot-free parts gives the parts back |
| Config.SplitAppend | src/core/util/Config.ts:50 | a dot-free part followed by "." splits off as the first part |
| Config.WalkComposes | src/core/util/Config.ts:53-55 | walking a path is walking its first part and then the rest; a `TypeError` ends the walk |
| Config.WalkToLeaf | src/core/util/Config.ts:51-56 | a dotted key reads its last segment as a property, `undefined` when missing |
| Config.SetThenGet | src/core/util/Config.ts:49-64 | `set` then `get` of a dot-free key returns the value, with `undefined` and `null` read back as `null` |
| Config.DottedSetInvisible | src/core/util/Config.ts:49-64 | `set` of a dotted key writes a property that `get` of that key never reads |
| Config.Walk | src/core/util/Config.ts:53-55 | walking no segments yields the start value; a `TypeError` names one of the walked segments |
| Config.Get | src/core/util/Config.ts:49-60 | a dot-free key reads its top-level property, with missing, `undefined` and `null` read as `null`; a dotted key walks the whole path from the settings object; only a dotted key can throw, naming a segment after the first |
| Config.DefaultDebug | src/core/util/Config.ts:4-14 | on the defaults `get("debug")` is `true` |
| Config.DefaultMissingKey | src/core/util/Config.ts:57-58 | on the defaults a missing dot-free key reads as `null` |
| Config.SplitThree | src/core/util/Config.ts:50 | a key of three dot-free parts joined by "." splits into those parts |
| Config.DefaultBindingUp | src/core/util/Config.ts:4-14 | on the defaults `get("bindings.move.up")` is "w" |
| Config.DefaultBindingMissing | src/core/util/Config.ts:51-56 | on the defaults a missing leaf `get("bindings.move.jump")` is `undefined`, not `null` |
| Config.DefaultMissingParent | src/core/util/Config.ts:49-56 | a dotted key whose first part is missing throws a `TypeError` |
| Config.JsObject.constructor | src/core/util/Config.ts:4-14 | a settings object holds the given properties |
| Config.ConfigStore.constructor | src/core/util/Config.ts:29-40 | the live settings start as a separate copy of the defaults |
| Config.ConfigStore.Set | src/core/util/Config.ts:62-64 | writes one top-level property of the live object |
| Config.ConfigStore.Reset | src/core/util/Config.ts:66-68 | the live object becomes the defaults object itself |
| Config.ConfigStore.GetKey | src/core/util/Config.ts:49-60 | on the live settings a dot-free key never throws and never reads as `undefined`; a key that throws has a dot and the error names one of its segments |
| Config.ResetDoesNotRestoreAfterSet | src/core/util/Config.ts:62-68 | after `reset`, a `set` writes into the defaults, so the next `reset` restores the changed value |

## Where the code and its own comments and tests differ

The model follows the code in each of these places.

- `destroy` says it deletes every component of the entity (the comment at
  `src/core/ECS.ts:91`). Its loop walks `Object.keys` of a `Map`, which has
  no own keys, so it erases nothing. `ECS.DestroyKeepsComponents` and
  `Packet.UnnamedDestroyedKeepsSlots` state what the code does. A destroyed
  entity's old components therefore stay in storage: `Packet.ReinsertReusesBuffer`
  shows a re-inserted entity updating its old buffer.
- The test "create() returns unique entity" (`test/core/ECS.test.ts:7`)
  checks two `create` calls on a fresh registry, and those do differ
  (`ECS.CreateTwice`). In general `create` returns the counter even when that
  id was already made live by `insert` (`ECS.CreateCanReturnLiveId`), so
  "create is unique" and "a component exists only for a live entity" do not
  hold in general.
- The test titled "view() returns no entities"
  (`test/core/ECS.test.ts:130-142`) asserts the opposite of its title: ten
  entities, no "test" component ever stored, and `view(["test"])` must yield
  all ten. The code and that assertion agree that a type with no storage map
  at all does not filter (`ECS.ViewIgnoresUnknownTypes`); only the title says
  otherwise.
- The lookup says it takes "the update after A" (the comment at
  `src/core/game/component/Position.ts:49-50`). `get` reads `B` at
  `buffer[i + 1]` after the loop has already moved `i` to the sample after
  `A`, so `B` is two samples after `A` (`Position.ChooseReadsTwoAhead`). With
  two samples it never interpolates (`Position.FewSamplesNeverInterpolate`).
  The test's `get(50) == (5,5)` still holds: it is the point at weight 0.25
  between the samples at 0 and 200, not at weight 0.5 between those at 0 and
  100 as the test's comment says.

## Left out

- Logging (`console.log`), the `Game` object (the handlers take the registry
  directly), the network, CBOR decoding and the worker are not part of this
  model. The handlers receive already-decoded packets.
- The pixi.js `Sprite` and its texture are a single constant `Sprite`
  component. `Vec2.lerp` is a parameter of the lookup; the worked examples
  use `Math.lerp` from `src/core/util/Common.ts`.
- JavaScript numbers are floating point. The model uses integers for entity
  ids and times and reals for coordinates and the interpolation weight, so
  rounding is not modelled.
- ECS.Version: JavaScript's `&` returns a signed 32-bit integer, so a version
  with bit 31 set is negative in the source. The model returns the unsigned
  32-bit pattern.
- ECS.Registry.View: the source returns a lazy generator that resolves
  components while it is iterated. The model returns the entries computed from
  the state at the call. Mutation during iteration is only modelled for the
  one place that does it, the destroy loop of `handleState`, where the
  `Set`'s iteration order is unaffected.
- ECS.Registry.EmplaceOrUpdate: components are values. The updater's result
  replaces the slot instead of mutating a shared object, so aliasing through a
  reference returned by `get` is not modelled. The falsy test on the stored
  component is modelled as "no component stored", since components are
  objects and therefore never falsy.
- The `ECS.System` interface and the `EntityView` wrapper class are not
  modelled separately; a view is the sequence of its entries.
- Packet.PositionUpdate: a "position" slot holding something other than a
  non-empty buffer is left as it is. The handlers never store one there
  (`Packet.ApplyStateWellTyped`).
- Packet.Call: a state handler given a payload that is not a state packet
  would read a missing field and throw; the model reports `Fail(())`.
- Callbacks are opaque: what a listener, key callback or `each` callback
  does is not modelled, including a listener that dispatches or listens
  during `update`.
- Input.Input.OnKeyChange: the DOM `KeyboardEvent` passed to the callbacks is
  not modelled. The constructor's `window` listener wiring and `element` are
  left out.
- Input.Lower: only ASCII letters are lower-cased; Unicode case mapping is
  not modelled.
- Common.JsArray.FilterSome: the callback's third argument (the array) is
  not passed. `removeMax` is an integer: a fractional or `NaN` limit, which
  the source never reaches and so never stops at, is not modelled. The `| 0`
  coercion of the length to a 32-bit integer is not modelled.
- Common.Equals: element comparison is Dafny equality. JavaScript's `!==`
  differs for `NaN` and for `0` against `-0`.
- `Math.rad`, `Math.deg` and `Math.clamp` and the console silencing in
  `src/core/util/Common.ts` are floating-point or I/O helpers and are not
  modelled.
- Config.Field: properties every JavaScript object inherits from
  `Object.prototype` (`toString`, `constructor`, `__proto__`, `hasOwnProperty`,
  `valueOf` and the rest) are absent from the model. In the source
  `get("toString")` returns the inherited function where the model reads
  `null`, and `set("__proto__", v)` changes the prototype instead of creating
  a property, so `Config.SetThenGet` does not hold for those keys.
- Config: JSON arrays, properties that JavaScript primitives inherit (such as
  a string's `length`) and numeric indexing into strings are not modelled. A
  primitive has no properties in the model.
- Config: loading from `localStorage`, `isStorageAvailable` and saving on
  `beforeunload` are I/O and are not modelled. The store starts from a copy
  of the defaults, which is what a first load produces.
