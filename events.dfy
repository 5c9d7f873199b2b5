// A listener component (GameEventListener) registering itself with a game
// event at lifecycle points chosen by its `persistent` flag.
//
// The event's listener list is modelled as a sequence of registrations:
// registering appends, unregistering removes the first equal registration
// and does nothing when there is none. The hooks are given as methods of
// the listener class, and as the pure `HookAction`, whose effect on the list
// over a whole host lifecycle is proved below.

module Events {

  import opened Instancing

  /** The host's lifecycle callbacks. */
  datatype Hook = Awake | OnEnable | OnDisable | OnDestroy

  /** What a callback does to the event's listener list. */
  datatype Action = Register | Unregister | Inert

  /** The persistent flag picks the pair of callbacks that (un)register:
      Awake/OnDestroy when set, OnEnable/OnDisable otherwise; the other two
      callbacks do nothing. */
  function HookAction(persistent: bool, hook: Hook): (a: Action)
    ensures a == Register <==> hook == (if persistent then Awake else OnEnable)
    ensures a == Unregister <==> hook == (if persistent then OnDestroy else OnDisable)
  {
    match hook
    case OnEnable => if !persistent then Register else Inert
    case OnDisable => if !persistent then Unregister else Inert
    case Awake => if persistent then Register else Inert
    case OnDestroy => if persistent then Unregister else Inert
  }

  /** The position of the first occurrence of `x`. */
  function IndexOf<T(==)>(s: seq<T>, x: T): (i: nat)
    requires x in s
    ensures i < |s| && s[i] == x && x !in s[..i]
  {
    if s[0] == x then 0
    else
      var j := IndexOf(s[1..], x);
      assert s[..j + 1] == [s[0]] + s[1..][..j];
      j + 1
  }

  /** Unregistering: drop the first occurrence of `x`, keep the rest in
      order; nothing happens when `x` is absent. */
  function RemoveFirst<T(==)>(s: seq<T>, x: T): (r: seq<T>)
    ensures x !in s ==> r == s
    ensures x in s ==> |r| == |s| - 1 && multiset(r) == multiset(s) - multiset{x}
  {
    if x in s then
      var i := IndexOf(s, x);
      assert s == s[..i] + [x] + s[i + 1..];
      s[..i] + s[i + 1..]
    else s
  }

  /** The effect of one action on the list, for the registration `x`. */
  function Perform<T(==)>(a: Action, listeners: seq<T>, x: T): seq<T> {
    match a
    case Register => listeners + [x]
    case Unregister => RemoveFirst(listeners, x)
    case Inert => listeners
  }

  /** The list after the callbacks `hooks`, in order. */
  function Replay<T(==)>(persistent: bool, hooks: seq<Hook>, listeners: seq<T>, x: T): seq<T>
    decreases |hooks|
  {
    if hooks == [] then listeners
    else Replay(persistent, hooks[1..], Perform(HookAction(persistent, hooks[0]), listeners, x), x)
  }

  /** `n` rounds of enabling and disabling the component. */
  function EnableCycles(n: nat): (hooks: seq<Hook>)
    ensures |hooks| == 2 * n
  {
    if n == 0 then [] else [OnEnable, OnDisable] + EnableCycles(n - 1)
  }

  /** A component's life: created, enabled and disabled `n` times, destroyed. */
  function Lifecycle(n: nat): (hooks: seq<Hook>)
    ensures |hooks| == 2 * n + 2 && hooks[0] == Awake && hooks[|hooks| - 1] == OnDestroy
  {
    [Awake] + EnableCycles(n) + [OnDestroy]
  }

  /** Unregistering right after registering restores the list, when the
      registration was not there before. */
  lemma UnregisterUndoesRegister<T>(s: seq<T>, x: T)
    requires x !in s
    ensures RemoveFirst(s + [x], x) == s
  {
    var i := IndexOf(s + [x], x);
    if i < |s| {
      assert false;
    }
    assert (s + [x])[..i] == s;
  }

  lemma {:induction false} ReplayAppend<T>(persistent: bool, a: seq<Hook>, b: seq<Hook>, s: seq<T>, x: T)
    ensures Replay(persistent, a + b, s, x) == Replay(persistent, b, Replay(persistent, a, s, x), x)
    decreases |a|
  {
    if a == [] {
      assert a + b == b;
    } else {
      var s' := Perform(HookAction(persistent, a[0]), s, x);
      assert a + b != [] && (a + b)[0] == a[0] && (a + b)[1..] == a[1..] + b;
      ReplayAppend(persistent, a[1..], b, s', x);
    }
  }

  /** Enabling and disabling leave the list as it was: for a persistent
      listener those callbacks are inert, for another one each round
      registers and unregisters. */
  lemma {:induction false} CyclesRestoreList<T>(persistent: bool, n: nat, s: seq<T>, x: T)
    requires !persistent ==> x !in s
    ensures Replay(persistent, EnableCycles(n), s, x) == s
    decreases n
  {
    if n > 0 {
      ReplayAppend(persistent, [OnEnable, OnDisable], EnableCycles(n - 1), s, x);
      assert [OnEnable, OnDisable][1..] == [OnDisable];
      if !persistent {
        UnregisterUndoesRegister(s, x);
      }
      assert Replay(persistent, [OnEnable, OnDisable], s, x) == s;
      CyclesRestoreList(persistent, n - 1, s, x);
    }
  }

  /** A whole life leaves the event's list as if the listener had never
      registered, whichever pair of callbacks does the registering. */
  lemma LifecycleRestoresList<T>(persistent: bool, n: nat, s: seq<T>, x: T)
    requires x !in s
    ensures Replay(persistent, Lifecycle(n), s, x) == s
  {
    var after := Replay(persistent, [Awake], s, x);
    assert [Awake][1..] == [];
    ReplayAppend(persistent, [Awake] + EnableCycles(n), [OnDestroy], s, x);
    ReplayAppend(persistent, [Awake], EnableCycles(n), s, x);
    CyclesRestoreList(persistent, n, after, x);
    assert [OnDestroy][1..] == [];
    UnregisterUndoesRegister(s, x);
  }

  /** While the component is enabled the listener is registered exactly
      once, at the end of the list, whether or not it is persistent. */
  lemma RegisteredWhileEnabled<T>(persistent: bool, n: nat, s: seq<T>, x: T)
    requires x !in s
    ensures Replay(persistent, [Awake] + EnableCycles(n) + [OnEnable], s, x) == s + [x]
  {
    var after := Replay(persistent, [Awake], s, x);
    assert [Awake][1..] == [] && [OnEnable][1..] == [];
    ReplayAppend(persistent, [Awake] + EnableCycles(n), [OnEnable], s, x);
    ReplayAppend(persistent, [Awake], EnableCycles(n), s, x);
    CyclesRestoreList(persistent, n, after, x);
  }

  /** Once the component is disabled, only a persistent listener stays
      registered. */
  lemma RegisteredWhileDisabledIffPersistent<T>(persistent: bool, n: nat, s: seq<T>, x: T)
    requires x !in s
    ensures var l := Replay(persistent, [Awake] + EnableCycles(n), s, x);
            (x in l <==> persistent) && (l == if persistent then s + [x] else s)
  {
    var after := Replay(persistent, [Awake], s, x);
    assert [Awake][1..] == [];
    ReplayAppend(persistent, [Awake], EnableCycles(n), s, x);
    CyclesRestoreList(persistent, n, after, x);
  }

  /** A listener's entry in an event's list: the listener and its key. */
  datatype Registration = Registration(listener: GameEventListener, key: Key?)

  /** The game event, of which only its list of listeners is modelled. */
  class GameEvent {
    var listeners: seq<Registration>

    constructor ()
      ensures listeners == []
    {
      listeners := [];
    }

    method RegisterListener(listener: GameEventListener, key: Key?)
      modifies this
      ensures listeners == old(listeners) + [Registration(listener, key)]
    {
      listeners := listeners + [Registration(listener, key)];
    }

    method UnregisterListener(listener: GameEventListener, key: Key?)
      modifies this
      ensures listeners == RemoveFirst(old(listeners), Registration(listener, key))
    {
      listeners := RemoveFirst(listeners, Registration(listener, key));
    }
  }

  /** The listener component; `responses` counts the invocations of its
      Response. `event` is a serialized field: it may be unassigned (null)
      and other code may assign it. */
  class GameEventListener {
    const persistent: bool
    var event: GameEvent?
    const key: Key?
    var responses: nat

    constructor (persistent: bool, event: GameEvent?, key: Key?)
      ensures this.persistent == persistent && this.event == event && this.key == key
      ensures responses == 0
    {
      this.persistent := persistent;
      this.event := event;
      this.key := key;
      responses := 0;
    }

    /** What this listener puts in the event's list. */
    function Entry(): (e: Registration)
      ensures e.listener == this && e.key == key
    {
      Registration(this, key)
    }

    /** Assigning the `Event` field. */
    method SetEvent(e: GameEvent?)
      modifies this`event
      ensures event == e
    {
      event := e;
    }

    // Each callback either does what `HookAction` says to the event's list,
    // or, when it has to reach the event and none is assigned, throws
    // (`threw`) a NullReferenceException and changes nothing.

    method OnEnable() returns (threw: bool)
      modifies event
      ensures threw <==> HookAction(persistent, Hook.OnEnable) != Inert && event == null
      ensures event != null ==>
        event.listeners == Perform(HookAction(persistent, Hook.OnEnable), old(event.listeners), Entry())
    {
      threw := false;
      if !persistent {
        if event == null {
          threw := true;
        } else {
          event.RegisterListener(this, key);
        }
      }
    }

    method OnDisable() returns (threw: bool)
      modifies event
      ensures threw <==> HookAction(persistent, Hook.OnDisable) != Inert && event == null
      ensures event != null ==>
        event.listeners == Perform(HookAction(persistent, Hook.OnDisable), old(event.listeners), Entry())
    {
      threw := false;
      if !persistent {
        if event == null {
          threw := true;
        } else {
          event.UnregisterListener(this, key);
        }
      }
    }

    method Awake() returns (threw: bool)
      modifies event
      ensures threw <==> HookAction(persistent, Hook.Awake) != Inert && event == null
      ensures event != null ==>
        event.listeners == Perform(HookAction(persistent, Hook.Awake), old(event.listeners), Entry())
    {
      threw := false;
      if persistent {
        if event == null {
          threw := true;
        } else {
          event.RegisterListener(this, key);
        }
      }
    }

    method OnDestroy() returns (threw: bool)
      modifies event
      ensures threw <==> HookAction(persistent, Hook.OnDestroy) != Inert && event == null
      ensures event != null ==>
        event.listeners == Perform(HookAction(persistent, Hook.OnDestroy), old(event.listeners), Entry())
    {
      threw := false;
      if persistent {
        if event == null {
          threw := true;
        } else {
          event.UnregisterListener(this, key);
        }
      }
    }

    /** Invokes Response once; nothing else changes. */
    method OnEventRaised()
      modifies this`responses
      ensures responses == old(responses) + 1
    {
      responses := responses + 1;
    }
  }
}
