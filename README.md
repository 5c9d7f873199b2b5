# Instancing and event listeners, modelled in Dafny

This project models two parts of a Unity toolkit.

1. **`InstanciableSO<T>`** is a template asset. Its `instanced` flag is fixed.
   When the flag is set, the template fans out into one lazily created
   object per key object. These instances live in a dictionary that may be
   null.
   - `Instance(key)` returns the template when instancing is off. It also
     returns the template for a null key, after logging a warning.
   - Otherwise `Instance(key)` memoises. On a miss it creates a new object,
     names it, stores it and fires `OnInstancesChanged`. On a hit it returns
     the stored instance.
   - `Clear()` replaces the dictionary with an empty one, or with null when
     not instanced, and fires the notification.
   - `InstanceCount`, `Keys` and `GetInstances()` are read-only views.
2. **`GameEventListener`** registers itself with a game event. Its
   `persistent` flag decides which pair of host callbacks does the work:
   `Awake`/`OnDestroy` when set, `OnEnable`/`OnDisable` otherwise. The other
   pair does nothing. `OnEventRaised` invokes the listener's `Response`.

Files:
- `optional.dfy` holds the `Option` type used for nullable references.
- `decimal.dfy` holds the decimal text of an `int`, as C# string
  concatenation writes it, with a parser and the round-trip proof.
- `instancing.dfy` holds the registry twice. The value `RegistryState` has
  the pure steps `InstanceStep` and `ClearStep`, and the lemmas about
  sequences of requests. The class `InstanciableSO` has methods that update
  its fields in place, and their contracts tie each new state to those steps.
- `events.dfy` holds the lifecycle. The pure `HookAction` and `Replay`
  describe the effect of the host's callbacks on an event's listener list.
  The classes `GameEvent` and `GameEventListener` have one method per
  callback, each proved to have the effect `HookAction` gives.

External calls become state:
- `OnInstancesChanged.Invoke` is a counter, `changeNotifications`.
- `Logging.Warning` is a counter, `warnings`.
- `Response.Invoke` is a counter, `responses`.
- `GetInstanceID()` is the constant `instanceId` of a `Key` object.
- `CreateInstance<T>()` allocates a new `InstanciableSO`. It has the default
  name, instancing off and no dictionary.

The game event's own source is not part of this model. Its listener list is
a sequence of `Registration(listener, key)` records. Registering appends a
record. Unregistering removes the first equal record, and does nothing when
there is none, as `List<T>.Remove` does.

A new instance is meant to be named `<template>_<id>`. The code appends to
the name of the newly created object instead (see Findings). The model uses
the intended name and also states the name as written. A new instance is
not a copy of the template: the code creates a default object and copies
none of the template's fields, and the model does the same.

## Model

| member | source | states |
|---|---|---|
| `Instancing.KeyOf` | Instancing/InstanciableSO.cs:76 | a null key is "no key", and a non-null key is itself |
| `Instancing.Count` | Instancing/InstanciableSO.cs:33 | the count is the number of dictionary entries, 0 for a null dictionary, and 0 exactly when there are no entries |
| `Instancing.InstanceStep` | Instancing/InstanciableSO.cs:73-94 | with instancing off: the template is returned and nothing changes; with a null key: the template and one warning, no entry; with a key: the key then has an entry, which is the result, and no other entry changes; on a hit: the stored object and no change at all; on a miss: the created object, count + 1; notifications grow exactly by the number of entries added, which is 0 or 1; the well-formedness "not instanced implies no dictionary" is kept |
| `Instancing.ClearStep` | Instancing/InstanciableSO.cs:47-52 | after Clear the count is 0, the dictionary is null exactly when not instanced, and exactly one notification fired |
| `Instancing.InstanceIdempotent` | Instancing/InstanciableSO.cs:85-93 | a second request with the same key returns the identical object and adds no entry and no notification, whatever a new creation would have given |
| `Instancing.ClearForgetsKeys` | Instancing/InstanciableSO.cs:47-91 | after Clear, a request with any key, including one known before, creates a new object: count 1, and two notifications in all |
| `Instancing.StepKeys` | Instancing/InstanciableSO.cs:83-91 | on an instanced registry, one request adds at most its own key to the dictionary |
| `Instancing.AccessAllCountsDistinctKeys` | Instancing/InstanciableSO.cs:83-91 | after any sequence of requests, the keys are those held before plus every non-null key requested, so the count grows once per distinct new key, not per call; the notifications added equal the entries added |
| `Instancing.InstanceName` | Instancing/InstanciableSO.cs:88 | a new instance's name starts with the template's name followed by "_" |
| `Instancing.InstanceNameEncodesKey` | Instancing/InstanciableSO.cs:88 | the text after "<template>_" in an instance name reads back as the key's id |
| `Instancing.InstanceNamesDistinct` | Instancing/InstanciableSO.cs:88 | keys with different ids give instances with different names |
| `Instancing.CreatedNameAsWritten` | Instancing/InstanciableSO.cs:87-88 | as written, the name of a new instance starts with "_", whatever the template is called |
| `Instancing.AsWrittenNameDropsTemplateName` | Instancing/InstanciableSO.cs:87-88 | for every template with a non-empty name, the name as written differs from "<template>_<id>" |
| `Instancing.SetToSeq` | Instancing/InstanciableSO.cs:61-64 | `ToArray` over the keys lists every element exactly once, so its length is the collection's size |
| `Instancing.InstanciableSO.constructor` | Instancing/InstanciableSO.cs:24-29 | a loaded asset has its serialized flag, a null dictionary and no notifications |
| `Instancing.InstanciableSO.Instanced` | Instancing/InstanciableSO.cs:32 | the property is the serialized flag; when it is off there is no dictionary and the count is 0 |
| `Instancing.InstanciableSO.InstanceCount` | Instancing/InstanciableSO.cs:33 | the count of the registry's state: the dictionary's size, 0 when it is null |
| `Instancing.InstanciableSO.Clear` | Instancing/InstanciableSO.cs:47-52 | the new state is `ClearStep` of the old one; the per-key instances are never the template and never shared |
| `Instancing.InstanciableSO.GetInstances` | Instancing/InstanciableSO.cs:54-62 | an empty collection when the dictionary is null; otherwise every stored instance exactly once, as many as `InstanceCount`, never the template |
| `Instancing.InstanciableSO.Keys` | Instancing/InstanciableSO.cs:64 | null exactly when the dictionary is null; otherwise every key exactly once, as many as `InstanceCount` |
| `Instancing.InstanciableSO.Instance` | Instancing/InstanciableSO.cs:73-94 | the new state and the result are `InstanceStep` of the old state; a keyed result is never the template; a miss returns a newly allocated object named "<template>_<id>" that is itself not instanced |
| `Decimal.NatToDecimal` | Instancing/InstanciableSO.cs:88 | the text of a natural number is non-empty, all digits, with no leading zero |
| `Decimal.IntToDecimal` | Instancing/InstanciableSO.cs:88 | the text of an int is non-empty and starts with '-' exactly when the int is negative |
| `Decimal.NatRoundTrip` | Instancing/InstanciableSO.cs:88 | reading the digits of a natural number back gives the number |
| `Decimal.IntRoundTrip` | Instancing/InstanciableSO.cs:88 | parsing the text of an int gives back the int |
| `Decimal.DecimalInjective` | Instancing/InstanciableSO.cs:88 | two ints with the same text are equal |
| `Events.HookAction` | Events/GameEventListener.cs:23-41 | exactly one callback registers: `Awake` when persistent, `OnEnable` otherwise; exactly one unregisters: `OnDestroy` when persistent, `OnDisable` otherwise; the other two do nothing |
| `Events.IndexOf` | Events/GameEventListener.cs:30 | the index found holds the registration, and no earlier index does |
| `Events.RemoveFirst` | Events/GameEventListener.cs:28-31 | unregistering an absent registration changes nothing; otherwise the list loses exactly one occurrence of it and keeps everything else |
| `Events.UnregisterUndoesRegister` | Events/GameEventListener.cs:23-41 | registering then unregistering restores the list, when the listener was not registered before |
| `Events.ReplayAppend` | Events/GameEventListener.cs:23-41 | running two sequences of callbacks one after the other is the same as running them joined |
| `Events.CyclesRestoreList` | Events/GameEventListener.cs:23-31 | any number of enable/disable rounds leaves the list unchanged; the callbacks are inert for a persistent listener |
| `Events.LifecycleRestoresList` | Events/GameEventListener.cs:23-41 | a whole life (Awake, enable/disable rounds, OnDestroy) leaves the list as if the listener had never registered, for both values of `persistent` |
| `Events.RegisteredWhileEnabled` | Events/GameEventListener.cs:23-36 | while the component is enabled, the listener is registered exactly once, at the end of the list, whether persistent or not |
| `Events.RegisteredWhileDisabledIffPersistent` | Events/GameEventListener.cs:13-36 | after being disabled, the listener is still registered exactly when it is persistent |
| `Events.GameEvent.RegisterListener` | Events/GameEventListener.cs:25 | registering appends the listener's record to the list |
| `Events.GameEvent.UnregisterListener` | Events/GameEventListener.cs:30 | unregistering removes the first equal record, or nothing when there is none |
| `Events.GameEventListener.constructor` | Events/GameEventListener.cs:13-21 | a listener has its persistent flag, its event (possibly unassigned) and its key, and has not yet responded |
| `Events.GameEventListener.Entry` | Events/GameEventListener.cs:25 | a listener's record in the list holds the listener itself and its key |
| `Events.GameEventListener.SetEvent` | Events/GameEventListener.cs:17-18 | the `Event` field is assignable, and afterwards holds the assigned event (or null) |
| `Events.GameEventListener.OnEnable` | Events/GameEventListener.cs:23-26 | with an event assigned, its list is changed as `HookAction` says for `OnEnable`: append when not persistent, otherwise unchanged; when the callback has to reach the event and none is assigned, it throws and changes nothing |
| `Events.GameEventListener.OnDisable` | Events/GameEventListener.cs:28-31 | with an event assigned, its list is changed as `HookAction` says for `OnDisable`: remove when not persistent, otherwise unchanged; when the callback has to reach the event and none is assigned, it throws and changes nothing |
| `Events.GameEventListener.Awake` | Events/GameEventListener.cs:33-36 | with an event assigned, its list is changed as `HookAction` says for `Awake`: append when persistent, otherwise unchanged; when the callback has to reach the event and none is assigned, it throws and changes nothing |
| `Events.GameEventListener.OnDestroy` | Events/GameEventListener.cs:38-41 | with an event assigned, its list is changed as `HookAction` says for `OnDestroy`: remove when persistent, otherwise unchanged; when the callback has to reach the event and none is assigned, it throws and changes nothing |
| `Events.GameEventListener.OnEventRaised` | Events/GameEventListener.cs:43-46 | Response is invoked exactly once, and nothing else changes |

## Left out

- The inspector editor for instanciable objects and the editor drawers: they are user-interface code.
- The per-payload event and listener classes (bool, float, `Vector2`, object): they only bind a generic base class that is not part of this model, and two of their payloads are floating point.
- Raising a game event: its dispatch order, and what happens when the list changes during a raise, belong to `GameEvent`, which is not part of this model.
- Resolving a key to a per-key event: this also belongs to `GameEvent`. The key is only carried in the listener's record.
- Events.GameEventListener.OnDisable: it unregisters from the event assigned at the time of the call. If `Event` was reassigned after `OnEnable`, the first registration is left behind; the lifecycle lemmas (`LifecycleRestoresList`, `CyclesRestoreList`) speak of one event's list, so they describe the class only while `Event` stays the same.
- Events.GameEventListener.OnDestroy: likewise, if `Event` was reassigned after `Awake`, the registration made by `Awake` is left behind.
- `GetTarget` and the `key` field come from `InstanceObserver`, which is not part of this model. The key is a constant of the listener here.
- The listeners of `OnInstancesChanged` and the argument passed to them, which is always the template: only the number of invocations is kept.
- The text of the warning: only the number of warnings is kept.
- Unity's `==` makes a destroyed object equal to null. The model has no destroyed objects, so only a real null key takes the null-key path.
- The order of `Keys` and `GetInstances()`: .NET gives no order for dictionary enumeration. The model states only that each element appears once.
- `Instanced` is virtual. Overrides in derived classes are not modelled.
- The weak-reference lifetime of keys and thread safety: neither can be expressed in the sequential model.
- The 32-bit width of instance ids: the ids are given by the engine and only printed, so no arithmetic can overflow.

## Findings

| source | as written | input that shows it | evidently intended | confidence | as-written member | corrected member |
|---|---|---|---|---|---|---|
| Instancing/InstanciableSO.cs:87-88 | `instance.name += "_" + key.GetInstanceID()` appends to the name of the newly created object. `CreateInstance<T>()` gives that object the default, empty name, so the result is "_<id>". | template named "Cfg", key id 42: the new instance is named "_42" | "Cfg_42": the template's name, "_", the key's id, as the use of `+=` suggests | medium (rests on the engine's default name for a new object); not executed | `Instancing.AsWrittenNameDropsTemplateName` | `Instancing.InstanceNameEncodesKey` |
