/** The input manager: the per-event state updates with their direct callbacks, the registry
    of named actions (each a list of bindings and a list of callbacks, switchable on and off),
    and `processActions`, which runs every active action's callbacks when any of its bindings
    holds and then ends the frame. Callbacks are represented by identities; running one is
    recorded as an entry in a trace. */
module InputActions {
  import opened Wrappers
  import opened InputState
  import opened InputBindings

  /** The identity of a registered `std::function`. */
  type CallbackId = nat

  /** Status codes returned by the registry operations. */
  const STATUS_OK: int := 0
  const STATUS_REJECTED: int := 1

  /** `InputAction`; a new action is active with no bindings and no callbacks. */
  datatype InputAction = InputAction(active: bool, id: string, bindings: seq<Binding>, callbacks: seq<CallbackId>)

  function NewAction(id: string): (r: InputAction)
    ensures r.active && r.id == id && r.bindings == [] && r.callbacks == []
  {
    InputAction(active := true, id := id, bindings := [], callbacks := [])
  }

  /** The `actions` map, keyed by action id. */
  type Registry = map<string, InputAction>

  /** Every entry is filed under its own id. */
  ghost predicate WellFormed(reg: Registry)
  {
    forall id :: id in reg ==> reg[id].id == id
  }

  /** A registry operation's result: the registry afterwards and the returned status. */
  datatype Outcome = Outcome(registry: Registry, status: int)

  /** `registerAction(id)`: rejects an id already present, otherwise files a new action. */
  function RegisterAction(reg: Registry, id: string): (r: Outcome)
    ensures r.status == STATUS_OK <==> id !in reg
    ensures r.status == STATUS_OK || r.status == STATUS_REJECTED
    ensures id in reg ==> r.registry == reg
    ensures id in r.registry && r.registry.Keys == reg.Keys + {id}
    ensures id !in reg ==> r.registry[id] == NewAction(id)
    ensures forall other :: other in reg && other != id ==> r.registry[other] == reg[other]
  {
    if id in reg then Outcome(reg, STATUS_REJECTED)
    else Outcome(reg[id := NewAction(id)], STATUS_OK)
  }

  /** `addActionBinding`: appends a binding to an existing action; rejects an unknown id. */
  function AddActionBinding(reg: Registry, id: string, binding: Binding): (r: Outcome)
    ensures r.status == STATUS_OK <==> id in reg
    ensures r.status == STATUS_OK || r.status == STATUS_REJECTED
    ensures id !in reg ==> r.registry == reg
    ensures r.registry.Keys == reg.Keys
    ensures id in reg ==> r.registry[id] == reg[id].(bindings := reg[id].bindings + [binding])
    ensures forall other :: other in reg && other != id ==> r.registry[other] == reg[other]
  {
    if id !in reg then Outcome(reg, STATUS_REJECTED)
    else Outcome(reg[id := reg[id].(bindings := reg[id].bindings + [binding])], STATUS_OK)
  }

  /** `addActionCallback`: appends a callback to an existing action; rejects an unknown id. */
  function AddActionCallback(reg: Registry, id: string, callback: CallbackId): (r: Outcome)
    ensures r.status == STATUS_OK <==> id in reg
    ensures r.status == STATUS_OK || r.status == STATUS_REJECTED
    ensures id !in reg ==> r.registry == reg
    ensures r.registry.Keys == reg.Keys
    ensures id in reg ==> r.registry[id] == reg[id].(callbacks := reg[id].callbacks + [callback])
    ensures forall other :: other in reg && other != id ==> r.registry[other] == reg[other]
  {
    if id !in reg then Outcome(reg, STATUS_REJECTED)
    else Outcome(reg[id := reg[id].(callbacks := reg[id].callbacks + [callback])], STATUS_OK)
  }

  /** `setActionActive`: switches an existing action on or off; rejects an unknown id. */
  function SetActionActive(reg: Registry, id: string, active: bool): (r: Outcome)
    ensures r.status == STATUS_OK <==> id in reg
    ensures r.status == STATUS_OK || r.status == STATUS_REJECTED
    ensures id !in reg ==> r.registry == reg
    ensures r.registry.Keys == reg.Keys
    ensures id in reg ==> r.registry[id] == reg[id].(active := active)
    ensures forall other :: other in reg && other != id ==> r.registry[other] == reg[other]
  {
    if id !in reg then Outcome(reg, STATUS_REJECTED)
    else Outcome(reg[id := reg[id].(active := active)], STATUS_OK)
  }

  /** `registerAction(id, binding, callback)`: rejects an id already present; otherwise files a
      new action and adds the binding and the callback to it through the two add operations,
      whose statuses are ignored. */
  function RegisterActionWith(reg: Registry, id: string, binding: Binding, callback: CallbackId): (r: Outcome)
    ensures r.status == STATUS_OK <==> id !in reg
    ensures r.status == STATUS_OK || r.status == STATUS_REJECTED
    ensures id in reg ==> r.registry == reg
    ensures r.registry.Keys == reg.Keys + {id}
    ensures id !in reg ==> r.registry[id] == InputAction(true, id, [binding], [callback])
    ensures forall other :: other in reg && other != id ==> r.registry[other] == reg[other]
  {
    if id in reg then Outcome(reg, STATUS_REJECTED)
    else
      var registered := RegisterAction(reg, id).registry;
      var bound := AddActionBinding(registered, id, binding).registry;
      Outcome(AddActionCallback(bound, id, callback).registry, STATUS_OK)
  }

  /** Every registry operation keeps every action filed under its own id, so the id an action
      carries is always the key it is found by. */
  lemma RegistryOperationsPreserveWellFormed(reg: Registry, id: string, binding: Binding,
                                             callback: CallbackId, active: bool)
    requires WellFormed(reg)
    ensures WellFormed(RegisterAction(reg, id).registry)
    ensures WellFormed(RegisterActionWith(reg, id, binding, callback).registry)
    ensures WellFormed(AddActionBinding(reg, id, binding).registry)
    ensures WellFormed(AddActionCallback(reg, id, callback).registry)
    ensures WellFormed(SetActionActive(reg, id, active).registry)
  {
  }

  /** A registered id is accepted by every add and set operation; an unregistered one is
      rejected by all of them and the registry is left as it was. */
  lemma RegisteredIdIsAccepted(reg: Registry, id: string, binding: Binding, callback: CallbackId, active: bool)
    ensures var reg1 := RegisterAction(reg, id).registry;
            && AddActionBinding(reg1, id, binding).status == STATUS_OK
            && AddActionCallback(reg1, id, callback).status == STATUS_OK
            && SetActionActive(reg1, id, active).status == STATUS_OK
    ensures id !in reg ==>
              && AddActionBinding(reg, id, binding) == Outcome(reg, STATUS_REJECTED)
              && AddActionCallback(reg, id, callback) == Outcome(reg, STATUS_REJECTED)
              && SetActionActive(reg, id, active) == Outcome(reg, STATUS_REJECTED)
  {
  }

  /** Every binding filed in the registry reads only in-range codes. */
  predicate BindingsInRange(reg: Registry)
  {
    forall id :: id in reg ==> forall i :: 0 <= i < |reg[id].bindings| ==> CodesInRange(reg[id].bindings[i])
  }

  /** Adding an in-range binding keeps the whole registry in range. */
  lemma AddInRangeBindingKeepsRegistryInRange(reg: Registry, id: string, binding: Binding, callback: CallbackId)
    requires BindingsInRange(reg) && CodesInRange(binding)
    ensures BindingsInRange(AddActionBinding(reg, id, binding).registry)
    ensures BindingsInRange(RegisterActionWith(reg, id, binding, callback).registry)
  {
    var r := AddActionBinding(reg, id, binding).registry;
    if id in reg {
      assert forall i :: 0 <= i < |r[id].bindings| ==>
               r[id].bindings[i] == (if i < |reg[id].bindings| then reg[id].bindings[i] else binding);
    }
    var w := RegisterActionWith(reg, id, binding, callback).registry;
    if id !in reg {
      assert w[id].bindings == [binding];
    }
  }

  /** The frame tests an action's bindings only when the action is active, and then only up
      to the first that holds; this predicate says that none of those tests reads out of
      bounds. */
  predicate EvaluatesSafely(s: InputState, a: InputAction)
  {
    !a.active || AnyHolds(s, a.bindings).Some?
  }

  /** No action's evaluation in this frame reads a key or button code out of bounds. */
  predicate NoOutOfBoundsRead(s: InputState, reg: Registry)
  {
    forall id :: id in reg ==> EvaluatesSafely(s, reg[id])
  }

  /** An action fires when it is active and at least one of its bindings holds. */
  predicate Fires(s: InputState, a: InputAction)
    requires EvaluatesSafely(s, a)
  {
    a.active && AnyHolds(s, a.bindings).value
  }

  /** A registry whose filed codes are all in range is evaluated without out-of-bounds reads in
      every state, and an action in it fires exactly when it is active and one of its bindings
      has the reference meaning. */
  lemma InRangeRegistryIsReadSafely(s: InputState, reg: Registry)
    ensures BindingsInRange(reg) ==> NoOutOfBoundsRead(s, reg)
    ensures BindingsInRange(reg) ==>
              forall id :: id in reg ==>
                (Fires(s, reg[id]) <==>
                 reg[id].active && exists i :: 0 <= i < |reg[id].bindings| && Holds(s, reg[id].bindings[i]))
  {
    if BindingsInRange(reg) {
      forall id | id in reg
        ensures AnyHolds(s, reg[id].bindings) ==
                Some(exists i :: 0 <= i < |reg[id].bindings| && Holds(s, reg[id].bindings[i]))
      {
      }
    }
  }

  /** Switching an action off keeps the frame free of out-of-bounds reads: an inactive
      action's bindings are never tested. */
  lemma DeactivatingKeepsReadsInBounds(s: InputState, reg: Registry, id: string)
    requires NoOutOfBoundsRead(s, reg)
    ensures NoOutOfBoundsRead(s, SetActionActive(reg, id, false).registry)
  {
  }

  /** One run of an action callback during `processActions`: which action, which callback. */
  datatype Invocation = Invocation(action: string, callback: CallbackId)

  /** `callbacks`, run in stored order on behalf of action `id`. */
  function RunAll(id: string, callbacks: seq<CallbackId>): (r: seq<Invocation>)
    ensures |r| == |callbacks|
    ensures forall k :: 0 <= k < |r| ==> r[k] == Invocation(id, callbacks[k])
  {
    if |callbacks| == 0 then []
    else [Invocation(id, callbacks[0])] + RunAll(id, callbacks[1..])
  }

  /** The trace of the action loop, visiting the actions in `order`. */
  function Invocations(s: InputState, reg: Registry, order: seq<string>): (r: seq<Invocation>)
    requires NoOutOfBoundsRead(s, reg)
    requires forall i :: 0 <= i < |order| ==> order[i] in reg
    ensures forall k :: 0 <= k < |r| ==> r[k].action in order
  {
    if |order| == 0 then []
    else
      var a := reg[order[0]];
      var head := if Fires(s, a) then RunAll(order[0], a.callbacks) else [];
      var rest := Invocations(s, reg, order[1..]);
      assert forall k :: 0 <= k < |rest| ==> rest[k].action in order;
      head + rest
  }

  /** The callbacks a trace ran on behalf of action `id`, in the order they ran. */
  function CallsOf(trace: seq<Invocation>, id: string): (r: seq<CallbackId>)
    ensures |r| <= |trace|
    ensures (forall k :: 0 <= k < |trace| ==> trace[k].action != id) ==> r == []
  {
    if |trace| == 0 then []
    else (if trace[0].action == id then [trace[0].callback] else []) + CallsOf(trace[1..], id)
  }

  lemma {:induction false} CallsOfAppend(a: seq<Invocation>, b: seq<Invocation>, id: string)
    ensures CallsOf(a + b, id) == CallsOf(a, id) + CallsOf(b, id)
    decreases |a|
  {
    if |a| == 0 {
      assert a + b == b;
    } else {
      var head := if a[0].action == id then [a[0].callback] else [];
      assert (a + b)[0] == a[0];
      assert (a + b)[1..] == a[1..] + b;
      CallsOfAppend(a[1..], b, id);
      calc {
        CallsOf(a + b, id);
        head + CallsOf(a[1..] + b, id);
        head + (CallsOf(a[1..], id) + CallsOf(b, id));
        (head + CallsOf(a[1..], id)) + CallsOf(b, id);
        CallsOf(a, id) + CallsOf(b, id);
      }
    }
  }

  lemma {:induction false} CallsOfRunAll(x: string, callbacks: seq<CallbackId>, id: string)
    ensures CallsOf(RunAll(x, callbacks), id) == (if x == id then callbacks else [])
    decreases |callbacks|
  {
    if |callbacks| > 0 {
      var r := RunAll(x, callbacks);
      assert r[1..] == RunAll(x, callbacks[1..]);
      CallsOfRunAll(x, callbacks[1..], id);
      if x == id {
        assert callbacks == [callbacks[0]] + callbacks[1..];
      }
    }
  }

  predicate Distinct(order: seq<string>)
  {
    forall i, j :: 0 <= i < j < |order| ==> order[i] != order[j]
  }

  /** Visiting each action at most once, the trace runs an action's callbacks exactly when the
      action was visited and fires, and then all of them in stored order. */
  lemma {:induction false} CallsOfInvocations(s: InputState, reg: Registry, order: seq<string>, id: string)
    requires NoOutOfBoundsRead(s, reg)
    requires forall i :: 0 <= i < |order| ==> order[i] in reg
    requires Distinct(order)
    ensures CallsOf(Invocations(s, reg, order), id) ==
            (if id in reg && id in order && Fires(s, reg[id]) then reg[id].callbacks else [])
    decreases |order|
  {
    if |order| > 0 {
      var a := reg[order[0]];
      var head := if Fires(s, a) then RunAll(order[0], a.callbacks) else [];
      CallsOfAppend(head, Invocations(s, reg, order[1..]), id);
      CallsOfInvocations(s, reg, order[1..], id);
      CallsOfRunAll(order[0], a.callbacks, id);
      if id == order[0] {
        assert id !in order[1..] by {
          forall k | 0 <= k < |order[1..]|
            ensures order[1..][k] != id
          {
            assert order[1..][k] == order[k + 1];
          }
        }
      } else {
        assert id in order <==> id in order[1..] by {
          if id in order {
            var k :| 0 <= k < |order| && order[k] == id;
            assert order[1..][k - 1] == id;
          }
        }
      }
    }
  }

  /** `order` visits every registered action exactly once: the iteration order of the
      `unordered_map`, which the language leaves unspecified. */
  predicate IsIterationOrder(reg: Registry, order: seq<string>)
  {
    && (forall i :: 0 <= i < |order| ==> order[i] in reg)
    && (forall id :: id in reg ==> id in order)
    && Distinct(order)
  }

  /** The result of `processActions`: the trace of action callbacks and the state afterwards. */
  datatype Processed = Processed(invocations: seq<Invocation>, state: InputState)

  /** `processActions`, visiting the actions in `order`; defined when no binding test it
      reaches reads out of bounds. Whatever the order is, each action's callbacks run exactly
      when the action is active and its bindings' test holds in the state before the call, all
      of them in their stored order; then the frame ends. When every filed code is in range,
      "the test holds" is "one of the bindings has its reference meaning". */
  function ProcessActions(s: InputState, reg: Registry, order: seq<string>): (r: Processed)
    requires NoOutOfBoundsRead(s, reg)
    requires IsIterationOrder(reg, order)
    ensures forall id :: id in reg ==>
              CallsOf(r.invocations, id) ==
              (if reg[id].active && AnyHolds(s, reg[id].bindings) == Some(true) then reg[id].callbacks else [])
    ensures BindingsInRange(reg) ==>
              forall id :: id in reg ==>
                CallsOf(r.invocations, id) ==
                (if reg[id].active && exists i :: 0 <= i < |reg[id].bindings| && Holds(s, reg[id].bindings[i])
                 then reg[id].callbacks else [])
    ensures forall k :: 0 <= k < |r.invocations| ==> r.invocations[k].action in reg
    ensures r.state == EndFrame(s)
  {
    InRangeRegistryIsReadSafely(s, reg);
    TraceRunsFiringActions(s, reg, order);
    InvocationsNameRegisteredActions(s, reg, order);
    Processed(Invocations(s, reg, order), EndFrame(s))
  }

  /** `CallsOfInvocations` for every registered action at once. */
  lemma TraceRunsFiringActions(s: InputState, reg: Registry, order: seq<string>)
    requires NoOutOfBoundsRead(s, reg)
    requires IsIterationOrder(reg, order)
    ensures forall id :: id in reg ==>
              CallsOf(Invocations(s, reg, order), id) == (if Fires(s, reg[id]) then reg[id].callbacks else [])
  {
    forall id | id in reg
      ensures CallsOf(Invocations(s, reg, order), id) == (if Fires(s, reg[id]) then reg[id].callbacks else [])
    {
      CallsOfInvocations(s, reg, order, id);
    }
  }

  lemma {:induction false} InvocationsNameRegisteredActions(s: InputState, reg: Registry, order: seq<string>)
    requires NoOutOfBoundsRead(s, reg)
    requires forall i :: 0 <= i < |order| ==> order[i] in reg
    ensures forall k :: 0 <= k < |Invocations(s, reg, order)| ==> Invocations(s, reg, order)[k].action in reg
    decreases |order|
  {
    if |order| > 0 {
      var a := reg[order[0]];
      var head := if Fires(s, a) then RunAll(order[0], a.callbacks) else [];
      InvocationsNameRegisteredActions(s, reg, order[1..]);
      RunAllNamesAction(order[0], a.callbacks);
      assert Invocations(s, reg, order) == head + Invocations(s, reg, order[1..]);
    }
  }

  lemma {:induction false} RunAllNamesAction(x: string, callbacks: seq<CallbackId>)
    ensures forall k :: 0 <= k < |RunAll(x, callbacks)| ==> RunAll(x, callbacks)[k].action == x
    decreases |callbacks|
  {
    if |callbacks| > 0 {
      RunAllNamesAction(x, callbacks[1..]);
    }
  }

  /** Without new events between two calls, the second `processActions` sees no press or
      release: key and button bindings on PRESS or RELEASE, cursor motion and scrolling do
      not hold, so they fire once per event, not once per frame. */
  lemma EdgesFireOncePerEvent(s: InputState, b: Binding)
    requires CodesInRange(b) && b.kind != Composite
    requires b.kind in {Key, MouseButton} ==> b.event != GLFW_REPEAT
    ensures !Holds(EndFrame(s), b)
  {
  }

  /** A key binding whose code indexes no array, filed under an action that is then switched
      off, is never tested: the frame is still defined and runs nothing. */
  lemma InactiveActionIsNeverRead(s: InputState)
    ensures var reg := SetActionActive(RegisterActionWith(map[], "a", KeyBinding(400, GLFW_PRESS), 0).registry,
                                       "a", false).registry;
            && !BindingsInRange(reg)
            && NoOutOfBoundsRead(s, reg)
            && ProcessActions(s, reg, ["a"]).invocations == []
  {
    var reg := SetActionActive(RegisterActionWith(map[], "a", KeyBinding(400, GLFW_PRESS), 0).registry,
                               "a", false).registry;
    assert reg["a"].bindings[0] == KeyBinding(400, GLFW_PRESS);
    assert IsIterationOrder(reg, ["a"]);
    assert Invocations(s, reg, ["a"][1..]) == [];
  }

  /** The manager as a whole: device state, actions and the direct key and mouse-button
      callbacks in registration order. */
  datatype InputManager = InputManager(
    state: InputState,
    actions: Registry,
    keyCallbacks: seq<CallbackId>,
    mouseButtonCallbacks: seq<CallbackId>)

  /** One run of a direct callback with the event it was given. */
  datatype DirectCall = DirectCall(callback: CallbackId, code: int, event: int)

  datatype EventOutcome = EventOutcome(manager: InputManager, calls: seq<DirectCall>)

  /** `addKeyCallback` and `addMouseButtonCallback`. */
  function AddKeyCallback(m: InputManager, callback: CallbackId): (r: InputManager)
    ensures r.keyCallbacks == m.keyCallbacks + [callback]
    ensures r.state == m.state && r.actions == m.actions && r.mouseButtonCallbacks == m.mouseButtonCallbacks
  {
    m.(keyCallbacks := m.keyCallbacks + [callback])
  }

  function AddMouseButtonCallback(m: InputManager, callback: CallbackId): (r: InputManager)
    ensures r.mouseButtonCallbacks == m.mouseButtonCallbacks + [callback]
    ensures r.state == m.state && r.actions == m.actions && r.keyCallbacks == m.keyCallbacks
  {
    m.(mouseButtonCallbacks := m.mouseButtonCallbacks + [callback])
  }

  /** Every callback of `callbacks`, in order, given the same (code, event). */
  function Broadcast(callbacks: seq<CallbackId>, code: int, event: int): (r: seq<DirectCall>)
    ensures |r| == |callbacks|
    ensures forall i :: 0 <= i < |callbacks| ==> r[i] == DirectCall(callbacks[i], code, event)
  {
    seq(|callbacks|, i requires 0 <= i < |callbacks| => DirectCall(callbacks[i], code, event))
  }

  /** `updateKeyState` (with out-of-range codes ignored by the state update): the key bank
      changes, then every key callback runs once with the event, in registration order. */
  function UpdateKeyState(m: InputManager, code: int, event: int): (r: EventOutcome)
    ensures r.manager == m.(state := UpdateKeys(m.state, code, event))
    ensures r.calls == Broadcast(m.keyCallbacks, code, event)
  {
    EventOutcome(m.(state := UpdateKeys(m.state, code, event)), Broadcast(m.keyCallbacks, code, event))
  }

  /** `updateMouseButtonState`, the same for mouse buttons. */
  function UpdateMouseButtonState(m: InputManager, code: int, event: int): (r: EventOutcome)
    ensures r.manager == m.(state := UpdateButtons(m.state, code, event))
    ensures r.calls == Broadcast(m.mouseButtonCallbacks, code, event)
  {
    EventOutcome(m.(state := UpdateButtons(m.state, code, event)), Broadcast(m.mouseButtonCallbacks, code, event))
  }

  /** A callback added last runs last on the next event, after every earlier one, and each
      of them sees the event unchanged. */
  lemma LastAddedKeyCallbackRunsLast(m: InputManager, callback: CallbackId, code: int, event: int)
    ensures var calls := UpdateKeyState(AddKeyCallback(m, callback), code, event).calls;
            && |calls| == |m.keyCallbacks| + 1
            && calls[|calls| - 1] == DirectCall(callback, code, event)
            && calls[..|m.keyCallbacks|] == Broadcast(m.keyCallbacks, code, event)
  {
  }
}
