// Keyed instancing of a template object (InstanciableSO<T>): a template
// either answers for itself, or fans out into one lazily created object per
// key, kept in a dictionary that only `Clear` empties.
//
// The registry's state is given twice: as the value `RegistryState`, with
// the pure steps `InstanceStep` and `ClearStep` and the lemmas about them,
// and as the class `InstanciableSO`, whose methods change its fields in
// place and are proved to follow those steps.

module Instancing {

  import opened Optional
  import Decimal

  /** A key object. `instanceId` stands for the engine's GetInstanceID(). */
  class Key {
    const instanceId: int

    constructor (instanceId: int)
      ensures this.instanceId == instanceId
    {
      this.instanceId := instanceId;
    }
  }

  /** A nullable key as an optional one. */
  function KeyOf(key: Key?): (k: Option<Key>)
    ensures k.None? <==> key == null
    ensures k.Some? ==> k.value == key
  {
    if key == null then None else Some(key as Key)
  }

  predicate Distinct<T(==)>(s: seq<T>) {
    forall i, j :: 0 <= i < j < |s| ==> s[i] != s[j]
  }

  ghost predicate Injective<K, V>(m: map<K, V>) {
    forall k, k' :: k in m && k' in m && k != k' ==> m[k] != m[k']
  }

  // ---------------------------------------------------------------------
  // The registry as a value

  /** `instances` is the nullable dictionary; `changes` counts the
      OnInstancesChanged invocations and `warnings` the logged warnings. */
  datatype RegistryState<K, V> =
    RegistryState(instanced: bool, instances: Option<map<K, V>>, changes: nat, warnings: nat)

  /** The entries of the dictionary, none when it is null. */
  function Entries<K, V>(s: RegistryState<K, V>): map<K, V> {
    s.instances.GetOr(map[])
  }

  /** InstanceCount: the size of the dictionary, 0 when it is null. */
  function Count<K, V>(s: RegistryState<K, V>): (n: nat)
    ensures n == |Entries(s)|
    ensures n == 0 <==> Entries(s) == map[]
  {
    match s.instances
    case None => 0
    case Some(m) => |m|
  }

  /** A registry that is not instanced never has a dictionary. */
  ghost predicate Wf<K, V>(s: RegistryState<K, V>) {
    !s.instanced ==> s.instances.None?
  }

  /** Instance(key): `template` is the object itself, `key` None is a null
      key, and `created` is the object a miss creates. Returns the new state
      and the object handed back. */
  function InstanceStep<K, V>(s: RegistryState<K, V>, template: V, key: Option<K>, created: V)
    : (res: (RegistryState<K, V>, V))
    ensures res.0.instanced == s.instanced
    ensures Wf(s) ==> Wf(res.0)
    // Template fallback: nothing changes when instancing is off.
    ensures !s.instanced ==> res == (s, template)
    // Null key: the template, one warning, no entry.
    ensures s.instanced && key.None? ==>
      res.1 == template && Entries(res.0) == Entries(s) && res.0.instances == s.instances
    ensures res.0.warnings == s.warnings + (if s.instanced && key.None? then 1 else 0)
    // A key: afterwards it has an entry, which is the result; no other entry changes.
    ensures s.instanced && key.Some? ==>
      && res.0.instances.Some?
      && key.value in Entries(res.0)
      && res.1 == Entries(res.0)[key.value]
      && Entries(res.0) == Entries(s)[key.value := res.1]
    // A hit hands back the stored object and changes nothing.
    ensures s.instanced && key.Some? && key.value in Entries(s) ==>
      res == (s, Entries(s)[key.value])
    // A miss adds exactly the created object.
    ensures s.instanced && key.Some? && key.value !in Entries(s) ==>
      res.1 == created && Count(res.0) == Count(s) + 1
    // One notification per entry added, none otherwise.
    ensures Count(s) <= Count(res.0) <= Count(s) + 1
    ensures res.0.changes == s.changes + (Count(res.0) - Count(s))
  {
    if !s.instanced then (s, template)
    else if key.None? then (s.(warnings := s.warnings + 1), template)
    else
      var m := Entries(s);
      if key.value in m then (s.(instances := Some(m)), m[key.value])
      else (s.(instances := Some(m[key.value := created]), changes := s.changes + 1), created)
  }

  /** Clear(): a new empty dictionary (null when not instanced), one notification. */
  function ClearStep<K, V>(s: RegistryState<K, V>): (s': RegistryState<K, V>)
    ensures Wf(s')
    ensures Count(s') == 0
    ensures s'.instances.None? <==> !s.instanced
    ensures s'.instanced == s.instanced && s'.warnings == s.warnings
    ensures s'.changes == s.changes + 1
  {
    s.(instances := if s.instanced then Some(map[]) else None, changes := s.changes + 1)
  }

  /** Asking twice for the same key gives the identical object, and the
      second request changes nothing, whatever a second creation would give. */
  lemma InstanceIdempotent<K, V>(s: RegistryState<K, V>, template: V, key: Option<K>, created: V, created': V)
    ensures var (s1, r1) := InstanceStep(s, template, key, created);
            var (s2, r2) := InstanceStep(s1, template, key, created');
            r2 == r1 && s2.instances == s1.instances && s2.changes == s1.changes
  {
  }

  /** After Clear, a key known before is a miss: a new object is created. */
  lemma ClearForgetsKeys<K, V>(s: RegistryState<K, V>, template: V, key: K, created: V)
    requires s.instanced
    ensures var (s', r) := InstanceStep(ClearStep(s), template, Some(key), created);
            r == created && Count(s') == 1 && s'.changes == s.changes + 2
  {
  }

  /** The non-null keys of a sequence of requests. */
  function KeysIn<K>(keys: seq<Option<K>>): set<K> {
    set i | 0 <= i < |keys| && keys[i].Some? :: keys[i].value
  }

  /** The state after the requests `keys` in order; `create` gives the
      object a miss on each key creates. */
  function AccessAll<K, V>(s: RegistryState<K, V>, template: V, keys: seq<Option<K>>, create: K -> V)
    : RegistryState<K, V>
    decreases |keys|
  {
    if keys == [] then s
    else
      var last := keys[|keys| - 1];
      var before := AccessAll(s, template, keys[..|keys| - 1], create);
      InstanceStep(before, template, last, if last.Some? then create(last.value) else template).0
  }

  /** One request adds at most its own key to the dictionary. */
  lemma StepKeys<K, V>(s: RegistryState<K, V>, template: V, key: Option<K>, created: V)
    requires s.instanced
    ensures var s' := InstanceStep(s, template, key, created).0;
            && s'.instanced
            && Entries(s').Keys == Entries(s).Keys + (if key.Some? then {key.value} else {})
  {
  }

  lemma KeysInSnoc<K>(keys: seq<Option<K>>)
    requires keys != []
    ensures KeysIn(keys) == KeysIn(keys[..|keys| - 1]) + (if keys[|keys| - 1].Some? then {keys[|keys| - 1].value} else {})
  {
    var init := keys[..|keys| - 1];
    assert forall i :: 0 <= i < |init| ==> init[i] == keys[i];
  }

  /** Count grows once per distinct new key, not per request: the entries
      are exactly the keys held before plus the non-null keys requested,
      and every notification matches one added entry. */
  lemma {:induction false} AccessAllCountsDistinctKeys<K, V>(
    s: RegistryState<K, V>, template: V, keys: seq<Option<K>>, create: K -> V)
    requires s.instanced
    ensures AccessAll(s, template, keys, create).instanced
    ensures Entries(AccessAll(s, template, keys, create)).Keys == Entries(s).Keys + KeysIn(keys)
    ensures AccessAll(s, template, keys, create).changes == s.changes + Count(AccessAll(s, template, keys, create)) - Count(s)
    decreases |keys|
  {
    if keys != [] {
      var init := keys[..|keys| - 1];
      var last := keys[|keys| - 1];
      AccessAllCountsDistinctKeys(s, template, init, create);
      var before := AccessAll(s, template, init, create);
      var created := if last.Some? then create(last.value) else template;
      assert AccessAll(s, template, keys, create) == InstanceStep(before, template, last, created).0;
      StepKeys(before, template, last, created);
      KeysInSnoc(keys);
    }
  }

  // ---------------------------------------------------------------------
  // Instance names

  /** The name the engine gives a newly created object. */
  const DefaultName: string := ""

  /** The name of a new instance: the template's name, "_", the key's id. */
  function InstanceName(templateName: string, keyId: int): (s: string)
    ensures |s| > |templateName| + 1
    ensures s[..|templateName| + 1] == templateName + "_"
  {
    templateName + "_" + Decimal.IntToDecimal(keyId)
  }

  /** The key's id can be read back from the instance name. */
  lemma InstanceNameEncodesKey(templateName: string, keyId: int)
    ensures Decimal.ParseInt(InstanceName(templateName, keyId)[|templateName| + 1..]) == Some(keyId)
  {
    assert InstanceName(templateName, keyId)[|templateName| + 1..] == Decimal.IntToDecimal(keyId);
    Decimal.IntRoundTrip(keyId);
  }

  /** Keys with different ids give instances with different names. */
  lemma InstanceNamesDistinct(templateName: string, keyId: int, keyId': int)
    requires keyId != keyId'
    ensures InstanceName(templateName, keyId) != InstanceName(templateName, keyId')
  {
    InstanceNameEncodesKey(templateName, keyId);
    InstanceNameEncodesKey(templateName, keyId');
  }

  /** The name as the source computes it: `+=` on the fresh object, whose
      name is the default one, so the template's name never appears. */
  function CreatedNameAsWritten(keyId: int): (s: string)
    ensures |s| > 1 && s[0] == '_'
  {
    DefaultName + "_" + Decimal.IntToDecimal(keyId)
  }

  /** For any template with a name, the name as written is not the
      intended `<template>_<id>` (for "Cfg" and id 42: "_42", not "Cfg_42"). */
  lemma AsWrittenNameDropsTemplateName(templateName: string, keyId: int)
    requires templateName != ""
    ensures CreatedNameAsWritten(keyId) != InstanceName(templateName, keyId)
  {
    assert |CreatedNameAsWritten(keyId)| < |InstanceName(templateName, keyId)|;
  }

  // ---------------------------------------------------------------------
  // The registry as an object

  /** ToArray over a set: its elements, each once, in some order. */
  method SetToSeq<T(==)>(s: set<T>) returns (r: seq<T>)
    ensures |r| == |s|
    ensures forall x :: x in r <==> x in s
    ensures Distinct(r)
  {
    r := [];
    var rest := s;
    while rest != {}
      invariant rest <= s
      invariant forall x :: x in r <==> x in s - rest
      invariant Distinct(r)
      invariant |r| + |rest| == |s|
      decreases |rest|
    {
      var x :| x in rest;
      r := r + [x];
      rest := rest - {x};
    }
  }

  /** An instanciable object: the template itself, and the class of the
      objects it creates per key. */
  class InstanciableSO {
    var name: string
    const instanced: bool
    var instances: Option<map<Key, InstanciableSO>>
    var changeNotifications: nat
    var warnings: nat

    /** A loaded asset with its serialized `instanced` flag and no dictionary. */
    constructor (name: string, instanced: bool)
      ensures this.name == name && this.instanced == instanced
      ensures instances == None && changeNotifications == 0 && warnings == 0
      ensures Valid()
    {
      this.name := name;
      this.instanced := instanced;
      instances := None;
      changeNotifications := 0;
      warnings := 0;
    }

    function State(): RegistryState<Key, InstanciableSO>
      reads this
    {
      RegistryState(instanced, instances, changeNotifications, warnings)
    }

    /** The per-key instances are never the template and never shared between keys. */
    ghost predicate Valid()
      reads this
    {
      && Wf(State())
      && (instances.Some? ==> this !in instances.value.Values && Injective(instances.value))
    }

    /** Instanced: instancing off means no instances at all. */
    function Instanced(): (b: bool)
      reads this
      requires Valid()
      ensures b == instanced
      ensures !b ==> InstanceCount() == 0 && instances.None?
    {
      instanced
    }

    /** InstanceCount: the number of keys with an instance. */
    function InstanceCount(): (n: nat)
      reads this
      ensures n == Count(State())
      ensures instances.Some? ==> n == |instances.value.Keys|
      ensures instances.None? ==> n == 0
    {
      match instances
      case None => 0
      case Some(m) => |m|
    }

    /** Clear(): forget every instance, and notify once. */
    method Clear()
      requires Valid()
      modifies this
      ensures Valid() && name == old(name)
      ensures State() == ClearStep(old(State()))
    {
      instances := if instanced then Some(map[]) else None;
      changeNotifications := changeNotifications + 1;
    }

    /** GetInstances(): every instance once, as many as InstanceCount. */
    method GetInstances() returns (r: seq<InstanciableSO>)
      requires Valid()
      ensures |r| == InstanceCount()
      ensures forall x :: x in r <==> x in Entries(State()).Values
      ensures Distinct(r)
      ensures this !in r
    {
      if instances.None? {
        return [];
      }
      var m := instances.value;
      var ks := SetToSeq(m.Keys);
      r := seq(|ks|, i requires 0 <= i < |ks| => m[ks[i]]);
      forall x | x in m.Values ensures x in r {
        var k :| k in m && m[k] == x;
        var i :| 0 <= i < |ks| && ks[i] == k;
        assert r[i] == x;
      }
    }

    /** Keys: null without a dictionary, otherwise every key once. */
    method Keys() returns (ks: Option<seq<Key>>)
      ensures ks.None? <==> instances.None?
      ensures ks.Some? ==> |ks.value| == InstanceCount() && Distinct(ks.value)
      ensures ks.Some? ==> forall k :: k in ks.value <==> k in instances.value
    {
      if instances.None? {
        return None;
      }
      var s := SetToSeq(instances.value.Keys);
      return Some(s);
    }

    /** Instance(key): the template when instancing is off or the key is
        null (with a warning), otherwise the key's own instance, created and
        announced on first use. */
    method Instance(key: Key?) returns (r: InstanciableSO)
      requires Valid()
      modifies this
      ensures Valid() && name == old(name)
      ensures (State(), r) == InstanceStep(old(State()), this, KeyOf(key), r)
      ensures instanced && key != null ==> r != this
      ensures instanced && key != null && key !in old(Entries(State())) ==>
        && fresh(r)
        && r.name == InstanceName(name, key.instanceId)
        && !r.instanced && r.instances == None
    {
      if !instanced {
        return this;
      }
      if key == null {
        warnings := warnings + 1;
        return this;
      }
      if instances.None? {
        instances := Some(map[]);
      }
      if key !in instances.value {
        var instance := new InstanciableSO(DefaultName, false);
        instance.name := InstanceName(name, key.instanceId);
        instances := Some(instances.value[key := instance]);
        changeNotifications := changeNotifications + 1;
      }
      r := instances.value[key];
    }
  }
}
