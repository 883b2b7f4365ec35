/** Input bindings: a key or mouse-button edge, cursor motion, a scroll direction, or a
    composite that holds when all of its parts hold. `CheckBinding` is the recursive test
    `processActions` applies, written with the same early-exit loop over the parts; `Holds`
    is the reference meaning it is proved equal to. */
module InputBindings {
  import opened Wrappers
  import opened InputState

  datatype BindingType = Key | MouseButton | MouseMove | MouseScrollUp | MouseScrollDown | Composite

  /** `Binding`. `code` and `event` are read only by key and mouse-button bindings, and
      `subBindings` only by composites. */
  datatype Binding = Binding(kind: BindingType, code: int, event: int, subBindings: seq<Binding>)

  /** The static constructors. Fields a constructor does not name keep their defaults
      (`code` 0, `event` 0, no parts). */
  function KeyBinding(code: int, event: int): (r: Binding)
    ensures r.kind == Key && r.code == code && r.event == event && r.subBindings == []
  {
    Binding(Key, code, event, [])
  }

  function MouseButtonBinding(code: int, event: int): (r: Binding)
    ensures r.kind == MouseButton && r.code == code && r.event == event && r.subBindings == []
  {
    Binding(MouseButton, code, event, [])
  }

  function MouseMoveBinding(): (r: Binding)
    ensures r.kind == MouseMove && r.code == 0 && r.event == 0 && r.subBindings == []
  {
    Binding(MouseMove, 0, 0, [])
  }

  function ScrollUpBinding(): (r: Binding)
    ensures r.kind == MouseScrollUp && r.code == 0 && r.event == 0 && r.subBindings == []
  {
    Binding(MouseScrollUp, 0, 0, [])
  }

  function ScrollDownBinding(): (r: Binding)
    ensures r.kind == MouseScrollDown && r.code == 0 && r.event == 0 && r.subBindings == []
  {
    Binding(MouseScrollDown, 0, 0, [])
  }

  function CompositeBinding(parts: seq<Binding>): (r: Binding)
    ensures r.kind == Composite && r.subBindings == parts && r.code == 0 && r.event == 0
  {
    Binding(Composite, 0, 0, parts)
  }

  /** Every code the test reads indexes its array: key codes below `MAX_KEYS`, button codes
      below `MAX_MOUSE_BUTTONS`, through every level of composites. The test does not check
      this itself. */
  predicate CodesInRange(b: Binding)
    decreases b
  {
    match b.kind
    case Key => 0 <= b.code < MAX_KEYS
    case MouseButton => 0 <= b.code < MAX_MOUSE_BUTTONS
    case Composite => forall i :: 0 <= i < |b.subBindings| ==> CodesInRange(b.subBindings[i])
    case _ => true
  }

  /** What a non-composite binding tests: the key and mouse-button tests are the getters of
      the event they name, motion and scrolling the two facts the state keeps. */
  function LeafHolds(s: InputState, b: Binding): (r: bool)
    requires b.kind != Composite && CodesInRange(b)
    ensures b.kind == Key && b.event == GLFW_PRESS ==> (r <==> IsKeyPressed(s, b.code))
    ensures b.kind == Key && b.event == GLFW_REPEAT ==> (r <==> IsKeyHeld(s, b.code))
    ensures b.kind == Key && b.event == GLFW_RELEASE ==> (r <==> IsKeyReleased(s, b.code))
    ensures b.kind == MouseButton && b.event == GLFW_PRESS ==> (r <==> IsMouseButtonPressed(s, b.code))
    ensures b.kind == MouseButton && b.event == GLFW_REPEAT ==> (r <==> IsMouseButtonHeld(s, b.code))
    ensures b.kind == MouseButton && b.event == GLFW_RELEASE ==> (r <==> IsMouseButtonReleased(s, b.code))
    ensures b.kind in {Key, MouseButton} && b.event !in {GLFW_PRESS, GLFW_REPEAT, GLFW_RELEASE} ==> !r
    ensures b.kind == MouseMove ==> (r <==> s.pointerMoved)
    ensures b.kind == MouseScrollUp ==> (r <==> s.scroll == ScrollUp)
    ensures b.kind == MouseScrollDown ==> (r <==> s.scroll == ScrollDown)
  {
    match b.kind
    case Key => CheckTrigger(s.keys.current[b.code], s.keys.previous[b.code], b.event)
    case MouseButton => CheckTrigger(s.buttons.current[b.code], s.buttons.previous[b.code], b.event)
    case MouseMove => s.pointerMoved
    case MouseScrollUp => s.scroll == ScrollUp
    case MouseScrollDown => s.scroll == ScrollDown
  }

  /** Reference meaning of a binding: a composite holds when every part holds. */
  ghost predicate Holds(s: InputState, b: Binding)
    requires CodesInRange(b)
    decreases b
  {
    if b.kind == Composite then
      forall i :: 0 <= i < |b.subBindings| ==> Holds(s, b.subBindings[i])
    else LeafHolds(s, b)
  }

  /** `checkBinding`, including the early exit of its loop over a composite's parts. A key or
      mouse-button test it reaches with a code outside the array reads out of bounds, which is
      undefined behaviour: `None`. Parts after the first that fails are never tested, so their
      codes do not matter. */
  function CheckBinding(s: InputState, b: Binding): (r: Option<bool>)
    ensures CodesInRange(b) ==> r == Some(Holds(s, b))
    ensures b.kind != Composite ==> (r.None? <==> !CodesInRange(b))
    decreases b, 1
  {
    if b.kind == Composite then PartsHoldFrom(s, b, 0)
    else if !CodesInRange(b) then None
    else Some(LeafHolds(s, b))
  }

  /** The loop over a composite's parts from index `i`: false at the first part that fails. */
  function PartsHoldFrom(s: InputState, b: Binding, i: nat): (r: Option<bool>)
    requires b.kind == Composite && i <= |b.subBindings|
    ensures CodesInRange(b) ==> r == Some(forall j :: i <= j < |b.subBindings| ==> Holds(s, b.subBindings[j]))
    decreases b, 0, |b.subBindings| - i
  {
    if i == |b.subBindings| then Some(true)
    else
      match CheckBinding(s, b.subBindings[i])
      case None => None
      case Some(false) => Some(false)
      case Some(true) => PartsHoldFrom(s, b, i + 1)
  }

  /** The parts of a composite are tested in order up to the first that does not hold: the
      composite's outcome is that part's outcome (false, or undefined if it reads out of
      bounds), whatever the later parts are; with no such part the composite holds. */
  lemma {:induction false} CompositeStopsAtFirstFailure(s: InputState, b: Binding, k: nat)
    requires b.kind == Composite && k <= |b.subBindings|
    requires forall j :: 0 <= j < k ==> CheckBinding(s, b.subBindings[j]) == Some(true)
    ensures k < |b.subBindings| && CheckBinding(s, b.subBindings[k]) != Some(true) ==>
              CheckBinding(s, b) == CheckBinding(s, b.subBindings[k])
    ensures k == |b.subBindings| ==> CheckBinding(s, b) == Some(true)
  {
    PartsFromStopAtFirstFailure(s, b, 0, k);
  }

  lemma {:induction false} PartsFromStopAtFirstFailure(s: InputState, b: Binding, i: nat, k: nat)
    requires b.kind == Composite && i <= k <= |b.subBindings|
    requires forall j :: i <= j < k ==> CheckBinding(s, b.subBindings[j]) == Some(true)
    ensures k < |b.subBindings| && CheckBinding(s, b.subBindings[k]) != Some(true) ==>
              PartsHoldFrom(s, b, i) == CheckBinding(s, b.subBindings[k])
    ensures k == |b.subBindings| ==> PartsHoldFrom(s, b, i) == Some(true)
    decreases k - i
  {
    if i < k {
      PartsFromStopAtFirstFailure(s, b, i + 1, k);
    }
  }

  /** A composite with no parts always holds; a composite of one part holds exactly when that
      part does. */
  lemma CompositeEdgeCases(s: InputState, part: Binding)
    ensures CheckBinding(s, CompositeBinding([])) == Some(true)
    ensures CheckBinding(s, CompositeBinding([part])) == CheckBinding(s, part)
  {
    var c := CompositeBinding([part]);
    assert c.subBindings[0] == part;
    assert PartsHoldFrom(s, c, 1) == Some(true);
  }

  /** The loop over an action's bindings: true at the first binding that holds, undefined at
      the first one that reads out of bounds. */
  function AnyHolds(s: InputState, bindings: seq<Binding>): (r: Option<bool>)
    ensures (forall i :: 0 <= i < |bindings| ==> CodesInRange(bindings[i])) ==>
              r == Some(exists i :: 0 <= i < |bindings| && Holds(s, bindings[i]))
  {
    if |bindings| == 0 then Some(false)
    else
      match CheckBinding(s, bindings[0])
      case None => None
      case Some(true) => Some(true)
      case Some(false) =>
        var rest := AnyHolds(s, bindings[1..]);
        assert forall i :: 1 <= i < |bindings| ==> bindings[i] == bindings[1..][i - 1];
        rest
  }

  /** The bindings are tested in order up to the first that does not fail: the outcome is that
      binding's outcome (true, or undefined if it reads out of bounds), whatever the later
      bindings are; when every binding fails the outcome is false. */
  lemma {:induction false} AnyHoldsStopsAtFirstSuccess(s: InputState, bindings: seq<Binding>, k: nat)
    requires k <= |bindings|
    requires forall j :: 0 <= j < k ==> CheckBinding(s, bindings[j]) == Some(false)
    ensures k < |bindings| && CheckBinding(s, bindings[k]) != Some(false) ==>
              AnyHolds(s, bindings) == CheckBinding(s, bindings[k])
    ensures k == |bindings| ==> AnyHolds(s, bindings) == Some(false)
    decreases k
  {
    if k > 0 {
      AnyHoldsStopsAtFirstSuccess(s, bindings[1..], k - 1);
    }
  }
}
