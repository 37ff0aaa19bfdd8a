# Event emitter listener registry — a Dafny model

This project models the listener registry of the Icicle event emitter
(`EventEmitterTrait`, with the public contract `EventEmitterInterface`). An
object that mixes the trait in holds a map from event identifier (a string or
an integer) to an insertion-ordered PHP array. That array maps a *listener key*
to the stored callable. The host object declares events with `createEvent` and
fires them with `emit`. Callers register listeners with `addListener`, `on` or
`once`. They remove them with `removeListener`, `off` or `removeAllListeners`,
and query with `getListeners`, `getListenerCount`, `emits` and `getEventList`.

The model is functional. The registry is `Emitter(listeners: map<EventId, seq<Slot>>)`.
A `Slot` is an array element: a `Key` and an `Entry`. An entry is either the
listener itself (`Persistent(l)`) or the one-shot wrapper that `once` builds
(`OneShot(l)`). Every operation is a pure function from the registry before
the call to the registry after it. A thrown `InvalidEventException` is the
result `Err(InvalidEvent(ev))`, and no new registry is produced. `emit`
returns whether it fired, the sequence of calls it made (listener and
forwarded arguments) and the registry after the one-shot wrappers removed
themselves.

Files:

- `callables.dfy` (module `Callables`): listeners (function name, method
  callable on an instance or a class, closure/invokable object) and
  `ListenerKey`, the model of `getListenerIndex`.
- `listener_sets.dfy` (module `ListenerSets`): one event's ordered, key-unique
  set and the filters on it (`Without` for `unset`, `PersistentOnly`).
- `event_emitter.dfy` (module `EventEmitter`): the registry and every
  operation of the trait and the interface.
- `emitter_properties.dfy` (module `EmitterProperties`): properties that relate
  several operations. These include the invariant every reachable registry
  keeps, the inverse of adding a listener, duplicate registration, dispatch
  order and one-shot semantics.

`emits` and `getEventList` are declared in `src/EventEmitterInterface.php` with
doc-comments only. The trait does not implement them. `EventEmitter.Emits` and
`EventEmitter.GetEventList` model those doc-comments ("is a defined event
identifier", "the defined event identifiers"), not code.

## Model

| member | source | states |
|---|---|---|
| Callables.ListenerKey | src/EventEmitterTrait.php:170-181 | a closure or invokable object is keyed by its own identity; an instance method by its object's identity and the method name; function names and static methods by text, a kind of key no object-based listener gets |
| Callables.KeyIdentifiesListener | src/EventEmitterTrait.php:170-181 | for listeners whose function and class names are identifiers, two listeners get the same key exactly when they are the same `Listener` value, that is the same callable spelled the same way |
| Callables.ObjectKeyIsIdentity | src/EventEmitterTrait.php:172-174 | a closure or invokable object shares its key with no other listener: the key is its object identity |
| Callables.InstanceMethodKeyIsIdentity | src/EventEmitterTrait.php:176-177 | an instance method callable shares its key only with the same method name, spelled the same way, on the same object |
| Callables.StaticMethodFormsShareKey | src/EventEmitterTrait.php:176-180 | the array form ['Foo', 'bar'] and the string form 'Foo::bar' of one static method get the same key |
| Callables.SplitAtSeparator | src/EventEmitterTrait.php:177 | joining a colon-free class name and a method name with '::' is injective |
| ListenerSets.Without | src/EventEmitterTrait.php:109 | unsetting never adds a slot, and no slot under an unset key is left |
| ListenerSets.WithoutOneIsCut | src/EventEmitterTrait.php:108-109 | unsetting the key held by exactly one slot removes that slot and keeps every other slot in its order |
| ListenerSets.WithoutMembers | src/EventEmitterTrait.php:108-109 | unsetting keys keeps exactly the slots whose key is not unset |
| ListenerSets.WithoutWellFormed | src/EventEmitterTrait.php:108-109 | unsetting keys keeps the set keyed by original listener and free of duplicate keys |
| ListenerSets.OneShotsLeavePersistent | src/EventEmitterTrait.php:69-73 | when every one-shot wrapper of a well-formed set has removed its own key, exactly the persistent entries remain, in order |
| EventEmitter.CreateEvent | src/EventEmitterTrait.php:18-25 | declares the event; an already declared event keeps its listeners; a new one starts empty; no other event changes |
| EventEmitter.AddListener | src/EventEmitterTrait.php:60-80 | undeclared event: InvalidEvent error; key already present: registry unchanged; otherwise one slot under the listener's key is appended at the end, one-shot exactly when requested, nothing else changes; validity is preserved |
| EventEmitter.On | src/EventEmitterTrait.php:85-88 | is addListener without the one-shot flag; a new listener is appended as itself |
| EventEmitter.Once | src/EventEmitterTrait.php:93-96 | is addListener with the one-shot flag; a new listener is appended as a one-shot wrapper under its own key |
| EventEmitter.RemoveListener | src/EventEmitterTrait.php:101-113 | undeclared event: InvalidEvent error; afterwards no slot holds the listener's key; an absent listener leaves the registry unchanged; with unique keys exactly that slot is cut out and the rest keep their order; other events unchanged |
| EventEmitter.Off | src/EventEmitterTrait.php:118-121 | is removeListener, with the same unknown-event failure |
| EventEmitter.RemoveAllListeners | src/EventEmitterTrait.php:126-141 | with no event every declared event is emptied and stays declared; with an event only that one is emptied; an undeclared event fails with InvalidEvent |
| EventEmitter.GetListeners | src/EventEmitterTrait.php:146-153 | undeclared event: InvalidEvent error; otherwise the event's stored entries with their keys, in dispatch order |
| EventEmitter.GetListenerCount | src/EventEmitterTrait.php:158-165 | undeclared event: InvalidEvent error; otherwise the length of what getListeners returns |
| EventEmitter.Emits | src/EventEmitterInterface.php:123-130 | an identifier is a defined event exactly when getListeners succeeds for it |
| EventEmitter.GetEventList | src/EventEmitterInterface.php:132-137 | an identifier is in the list exactly when emits holds for it |
| EventEmitter.CallEffect | src/EventEmitterTrait.php:70-72 | calling a one-shot wrapper removes the captured listener's key from the live set; a plain listener changes nothing |
| EventEmitter.Dispatch | src/EventEmitterTrait.php:50-52 | walking a snapshot makes one call per snapshot entry, in order, with the same arguments; the live set loses exactly the keys of the snapshot's one-shot entries |
| EventEmitter.Emit | src/EventEmitterTrait.php:38-55 | undeclared event: InvalidEvent error; returns true exactly when the set is non-empty; calls every stored listener once in insertion order with the same arguments; an empty set changes nothing; afterwards a well-formed set keeps exactly its persistent entries |
| EmitterProperties.Step | src/EventEmitterTrait.php:18-141 | every operation preserves validity; only createEvent adds an event, and nothing removes one |
| EmitterProperties.RunKeepsInvariant | src/EventEmitterTrait.php:18-141 | any sequence of operations keeps the registry valid and every declared event declared |
| EmitterProperties.ReachableIsValid | src/EventEmitterTrait.php:11 | every registry reachable from a new host object is valid |
| EmitterProperties.UnknownEventRejected | src/EventEmitterTrait.php:38-165 | on an undeclared event emit, addListener, on, once, removeListener, off, removeAllListeners(event), getListeners and getListenerCount all fail with InvalidEvent carrying it, and emits is false |
| EmitterProperties.EmitsIffUsable | src/EventEmitterInterface.php:123-130 | emits holds exactly when addListener, removeListener, removeAllListeners, getListenerCount and emit succeed, and exactly when the event is listed |
| EmitterProperties.CreateEventIdempotent | src/EventEmitterTrait.php:18-25 | declaring twice is declaring once; declaring a declared event changes nothing |
| EmitterProperties.DeclaredEventStartsEmpty | src/EventEmitterTrait.php:20-22 | a newly declared event is known, has no listeners, count 0, and emitting it returns false and calls nothing |
| EmitterProperties.DuplicateAddIsNoop | src/EventEmitterTrait.php:66-77 | adding the same listener again, with either flag, leaves registry and count unchanged |
| EmitterProperties.FirstRegistrationDecides | src/EventEmitterTrait.php:68-76 | after two registrations of a new listener the stored entry is one-shot exactly when the first was `once` |
| EmitterProperties.RemoveUndoesAdd | src/EventEmitterTrait.php:69-76 | removeListener with the original listener undoes a fresh addListener, including a `once` one |
| EmitterProperties.ReAddGoesToEnd | src/EventEmitterTrait.php:107-109 | removing a listener and adding it back moves it to the end, the others keeping their order |
| EmitterProperties.RemoveAllKeepsEvents | src/EventEmitterTrait.php:128-131 | removeAllListeners() keeps the event list and leaves every event with count 0 and nothing to fire |
| EmitterProperties.PersistentEmitKeepsRegistry | src/EventEmitterTrait.php:44-54 | emitting an event that has no one-shot listeners leaves the registry unchanged |
| EmitterProperties.OnTwiceStoresInOrder | src/EventEmitterTrait.php:76 | adding A then B to an empty set stores A then B |
| EmitterProperties.EmitFollowsInsertionOrder | src/EventEmitterTrait.php:50-54 | with A then B registered, emit calls A then B with the same arguments, returns true and leaves the registry as it was |
| EmitterProperties.OnceCalledOnNextEmit | src/EventEmitterInterface.php:37-52 | a `once` listener is called exactly once by the next emit, last in order, and its key is gone afterwards |
| EmitterProperties.EmitSeries | src/EventEmitterTrait.php:38-55 | emitting an event any number of times in a row keeps the event list and keeps a valid registry valid |
| EmitterProperties.AbsentListenerNeverCalled | src/EventEmitterTrait.php:44-54 | a listener whose key a valid set does not hold is called by none of any number of successive emissions |
| EmitterProperties.OnceNotCalledAgain | src/EventEmitterInterface.php:11 | after the emission that calls a `once` listener, no later emission calls it, however many follow |
| EmitterProperties.TickScenario | src/EventEmitterInterface.php:37-39 | declare "tick", register one `once` listener, emit three times: one call in total, count 0 after the first emit, later emits return false |

## Left out

- Calling listeners: `call_user_func_array` and `func_get_args` are not modelled. An emission is the sequence of `Call(listener, args)` it makes. The arguments are a small `Value` type standing for PHP's `mixed`.
- Re-entrant listeners: listeners are assumed never to touch the registry. The only change during dispatch is a one-shot wrapper removing itself.
- Listener exceptions: a listener that throws aborts the rest of the dispatch in the source. The model has no failing listeners.
- `spl_object_hash`: object identity is an abstract `ObjectId`. Hash reuse after an object is destroyed is not modelled.
- PHP array-key coercion: `"1"` and `1` are different event identifiers in the model. The same holds for a numeric string listener key.
- Callables.ListenerKey: `Key` is a datatype, so an object hash can never equal a function name, and an object's hash joined to a method name (`ObjectMethod(id, m)`) can never equal a class name joined to one (`Text(c + "::" + m)`). In PHP all of these are strings: a function or class whose name equals some object's hash would collide with it.
- Callables.KeyIdentifiesListener: names are compared as written. PHP function, class and method names are case-insensitive, and a function or class name may carry a leading `\`. So `'strlen'` and `'STRLEN'`, or `[$o, 'onTick']` and `[$o, 'ontick']`, are one callable under two keys. Both the source and the model store such a callable twice, and `emit` calls it twice.
- `InvalidEventException`: the class is not part of this model. The error is `InvalidEvent(event)`.
- The `$this` returned for chaining is dropped: each mutator returns the new registry.
- The second `isset` check in `removeListener` (src/EventEmitterTrait.php:107) can never fail after the first. It is modelled as absent.
- EventEmitter.Emits and EventEmitter.GetEventList come from the interface doc-comments only. The trait does not implement them, so a class using the trait must.
- `getListeners` returns the stored values, so a `once` listener appears as its wrapper (`OneShot(l)`). Removing by that wrapper value is not modelled, because the model has no separate identity for wrappers.
