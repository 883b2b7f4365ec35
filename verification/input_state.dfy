/** The input manager's device state: for keys and for mouse buttons, a bank of current and
    previous pressed flags updated one event at a time, the PRESS / REPEAT / RELEASE edge
    tests, the state getters, and the end-of-frame update that copies current into previous.
    Cursor motion and scrolling are kept only as the two facts the bindings test (the cursor
    moved; the scroll total points up or down), since their floating-point values are not
    modelled. */
module InputState {
  import opened Wrappers

  const MAX_KEYS: nat := 350
  const MAX_MOUSE_BUTTONS: nat := 8

  /** GLFW event codes. */
  const GLFW_RELEASE: int := 0
  const GLFW_PRESS: int := 1
  const GLFW_REPEAT: int := 2

  /** `GLFW_KEY_UNKNOWN`: the key code GLFW reports for keys it has no token for. */
  const GLFW_KEY_UNKNOWN: int := -1

  /** A bank of buttons (keys or mouse buttons): pressed now, pressed at the previous update. */
  datatype ButtonBank = ButtonBank(current: seq<bool>, previous: seq<bool>)

  predicate Sized(b: ButtonBank, n: nat)
  {
    |b.current| == n && |b.previous| == n
  }

  function ReleasedBank(n: nat): (r: ButtonBank)
    ensures Sized(r, n)
    ensures forall i :: 0 <= i < n ==> !r.current[i] && !r.previous[i]
  {
    ButtonBank(seq(n, i => false), seq(n, i => false))
  }

  /** Where the accumulated vertical scroll points, relative to the epsilon threshold. */
  datatype Scroll = ScrollNone | ScrollUp | ScrollDown

  datatype InputStateRecord = InputStateRecord(
    keys: ButtonBank,
    buttons: ButtonBank,
    pointerMoved: bool,
    scroll: Scroll)

  type InputState = s: InputStateRecord | Sized(s.keys, MAX_KEYS) && Sized(s.buttons, MAX_MOUSE_BUTTONS)
    witness InputStateRecord(ButtonBank(seq(350, i => false), seq(350, i => false)),
                             ButtonBank(seq(8, i => false), seq(8, i => false)), false, ScrollNone)

  /** The member initialisers: every key and button released now and before, no motion. */
  function InitialState(): (r: InputState)
    ensures forall k :: 0 <= k < MAX_KEYS ==> !r.keys.current[k] && !r.keys.previous[k]
    ensures forall b :: 0 <= b < MAX_MOUSE_BUTTONS ==> !r.buttons.current[b] && !r.buttons.previous[b]
    ensures !r.pointerMoved && r.scroll == ScrollNone
  {
    InputStateRecord(ReleasedBank(MAX_KEYS), ReleasedBank(MAX_MOUSE_BUTTONS), false, ScrollNone)
  }

  /** The state update of `updateKeyState` / `updateMouseButtonState` exactly as written:
      the code indexes the arrays unchecked, so a code outside the bank is an out-of-bounds
      access (`None`, undefined behaviour). */
  function UpdateBankAsWritten(b: ButtonBank, code: int, event: int): (r: Option<ButtonBank>)
    requires Sized(b, |b.current|)
    ensures r.None? <==> !(0 <= code < |b.current|)
  {
    if 0 <= code < |b.current| then
      Some(ButtonBank(b.current[code := event != GLFW_RELEASE], b.previous[code := b.current[code]]))
    else None
  }

  /** GLFW reports `GLFW_KEY_UNKNOWN` for keys without a token, and the key callback passes it
      straight to `updateKeyState`: the unchecked update then writes before the arrays. */
  lemma UnknownKeyIndexesOutOfBounds()
    ensures UpdateBankAsWritten(InitialState().keys, GLFW_KEY_UNKNOWN, GLFW_PRESS).None?
  {
  }

  /** The intended update: for a code in range, the previous flag takes the old current flag
      and the current flag becomes "not a release"; a code outside the bank is ignored. */
  function UpdateBank(b: ButtonBank, code: int, event: int): (r: ButtonBank)
    requires Sized(b, |b.current|)
    ensures Sized(r, |b.current|)
    ensures 0 <= code < |b.current| ==>
              r.previous[code] == b.current[code] && r.current[code] == (event != GLFW_RELEASE)
    ensures forall j :: 0 <= j < |b.current| && j != code ==>
              r.current[j] == b.current[j] && r.previous[j] == b.previous[j]
    ensures !(0 <= code < |b.current|) ==> r == b
  {
    match UpdateBankAsWritten(b, code, event)
    case Some(updated) => updated
    case None => b
  }

  /** Wherever the written update is defined, the guarded update agrees with it. */
  lemma UpdateBankAgreesWhereDefined(b: ButtonBank, code: int, event: int)
    requires Sized(b, |b.current|)
    ensures UpdateBankAsWritten(b, code, event).Some? ==> UpdateBankAsWritten(b, code, event).value == UpdateBank(b, code, event)
  {
  }

  /** `updateKeyState`'s effect on the state (the direct callbacks are in `InputActions`). */
  function UpdateKeys(s: InputState, code: int, event: int): (r: InputState)
    ensures r.buttons == s.buttons && r.pointerMoved == s.pointerMoved && r.scroll == s.scroll
    ensures r.keys == UpdateBank(s.keys, code, event)
  {
    s.(keys := UpdateBank(s.keys, code, event))
  }

  /** `updateMouseButtonState`'s effect on the state: the same update on the button bank. */
  function UpdateButtons(s: InputState, code: int, event: int): (r: InputState)
    ensures r.keys == s.keys && r.pointerMoved == s.pointerMoved && r.scroll == s.scroll
    ensures r.buttons == UpdateBank(s.buttons, code, event)
  {
    s.(buttons := UpdateBank(s.buttons, code, event))
  }

  /** `checkTrigger`: whether a (current, previous) pair matches a binding's event. */
  function CheckTrigger(current: bool, previous: bool, event: int): (r: bool)
    ensures event == GLFW_PRESS ==> (r <==> current && !previous)
    ensures event == GLFW_REPEAT ==> (r <==> current && previous)
    ensures event == GLFW_RELEASE ==> (r <==> !current && previous)
    ensures event !in {GLFW_PRESS, GLFW_REPEAT, GLFW_RELEASE} ==> !r
  {
    if event == GLFW_PRESS then current && !previous
    else if event == GLFW_REPEAT then current && previous
    else if event == GLFW_RELEASE then !current && previous
    else false
  }

  /** For any pair of flags at most one of PRESS, REPEAT and RELEASE triggers, and when the
      button was up both times none does. */
  lemma AtMostOneTrigger(current: bool, previous: bool)
    ensures !(CheckTrigger(current, previous, GLFW_PRESS) && CheckTrigger(current, previous, GLFW_REPEAT))
    ensures !(CheckTrigger(current, previous, GLFW_PRESS) && CheckTrigger(current, previous, GLFW_RELEASE))
    ensures !(CheckTrigger(current, previous, GLFW_REPEAT) && CheckTrigger(current, previous, GLFW_RELEASE))
    ensures !current && !previous ==>
              !CheckTrigger(current, previous, GLFW_PRESS) && !CheckTrigger(current, previous, GLFW_REPEAT) &&
              !CheckTrigger(current, previous, GLFW_RELEASE)
  {
  }

  /** The getters on one bank. */
  predicate IsPressed(b: ButtonBank, i: nat)
    requires i < |b.current| && i < |b.previous|
  {
    b.current[i] && !b.previous[i]
  }

  predicate IsHeld(b: ButtonBank, i: nat)
    requires i < |b.current| && i < |b.previous|
  {
    b.current[i] && b.previous[i]
  }

  predicate IsReleased(b: ButtonBank, i: nat)
    requires i < |b.current| && i < |b.previous|
  {
    !b.current[i] && b.previous[i]
  }

  /** `isKeyPressed`, `isKeyHeld`, `isKeyReleased` (keys) and `isMouseButtonPressed`,
      `isMouseButtonHeld`, `isMouseButtonReleased` (buttons) are the bank getters applied
      to the right bank; each is the trigger test for PRESS, REPEAT and RELEASE respectively,
      and no two of them hold at once. */
  lemma GettersAreTriggersAndExclusive(b: ButtonBank, i: nat)
    requires i < |b.current| && i < |b.previous|
    ensures IsPressed(b, i) == CheckTrigger(b.current[i], b.previous[i], GLFW_PRESS)
    ensures IsHeld(b, i) == CheckTrigger(b.current[i], b.previous[i], GLFW_REPEAT)
    ensures IsReleased(b, i) == CheckTrigger(b.current[i], b.previous[i], GLFW_RELEASE)
    ensures !(IsPressed(b, i) && IsHeld(b, i)) && !(IsPressed(b, i) && IsReleased(b, i)) &&
            !(IsHeld(b, i) && IsReleased(b, i))
  {
  }

  function IsKeyPressed(s: InputState, key: nat): (r: bool)
    requires key < MAX_KEYS
    ensures r <==> CheckTrigger(s.keys.current[key], s.keys.previous[key], GLFW_PRESS)
  {
    IsPressed(s.keys, key)
  }

  function IsKeyHeld(s: InputState, key: nat): (r: bool)
    requires key < MAX_KEYS
    ensures r <==> CheckTrigger(s.keys.current[key], s.keys.previous[key], GLFW_REPEAT)
  {
    IsHeld(s.keys, key)
  }

  function IsKeyReleased(s: InputState, key: nat): (r: bool)
    requires key < MAX_KEYS
    ensures r <==> CheckTrigger(s.keys.current[key], s.keys.previous[key], GLFW_RELEASE)
  {
    IsReleased(s.keys, key)
  }

  function IsMouseButtonPressed(s: InputState, button: nat): (r: bool)
    requires button < MAX_MOUSE_BUTTONS
    ensures r <==> CheckTrigger(s.buttons.current[button], s.buttons.previous[button], GLFW_PRESS)
  {
    IsPressed(s.buttons, button)
  }

  function IsMouseButtonHeld(s: InputState, button: nat): (r: bool)
    requires button < MAX_MOUSE_BUTTONS
    ensures r <==> CheckTrigger(s.buttons.current[button], s.buttons.previous[button], GLFW_REPEAT)
  {
    IsHeld(s.buttons, button)
  }

  function IsMouseButtonReleased(s: InputState, button: nat): (r: bool)
    requires button < MAX_MOUSE_BUTTONS
    ensures r <==> CheckTrigger(s.buttons.current[button], s.buttons.previous[button], GLFW_RELEASE)
  {
    IsReleased(s.buttons, button)
  }

  /** Initially no key or button is pressed, held or released. */
  lemma InitiallyNothingActive(key: nat, button: nat)
    requires key < MAX_KEYS && button < MAX_MOUSE_BUTTONS
    ensures !IsKeyPressed(InitialState(), key) && !IsKeyHeld(InitialState(), key) && !IsKeyReleased(InitialState(), key)
    ensures !IsMouseButtonPressed(InitialState(), button) && !IsMouseButtonHeld(InitialState(), button)
            && !IsMouseButtonReleased(InitialState(), button)
  {
  }

  /** A key event followed by the getters: pressing a key that was up makes it "pressed",
      pressing or repeating one that was down makes it "held", releasing one that was down
      makes it "released". */
  lemma KeyEventThenGetters(s: InputState, key: nat, event: int)
    requires key < MAX_KEYS
    ensures var t := UpdateKeys(s, key, event);
            && (IsKeyPressed(t, key) <==> event != GLFW_RELEASE && !s.keys.current[key])
            && (IsKeyHeld(t, key) <==> event != GLFW_RELEASE && s.keys.current[key])
            && (IsKeyReleased(t, key) <==> event == GLFW_RELEASE && s.keys.current[key])
  {
  }

  /** The end-of-frame part of `processActions`: previous flags take the current ones, the
      pointer counts as still and the scroll totals return to zero. */
  function EndFrame(s: InputState): (r: InputState)
    ensures r.keys.current == s.keys.current && r.buttons.current == s.buttons.current
    ensures r.keys.previous == s.keys.current && r.buttons.previous == s.buttons.current
    ensures !r.pointerMoved && r.scroll == ScrollNone
  {
    InputStateRecord(ButtonBank(s.keys.current, s.keys.current),
                     ButtonBank(s.buttons.current, s.buttons.current), false, ScrollNone)
  }

  /** After the end-of-frame update nothing is pressed or released, and "held" is exactly
      "down now", for every key and every mouse button. */
  lemma AfterEndFrameOnlyHeld(s: InputState)
    ensures forall k :: 0 <= k < MAX_KEYS ==>
              !IsKeyPressed(EndFrame(s), k) && !IsKeyReleased(EndFrame(s), k) &&
              (IsKeyHeld(EndFrame(s), k) <==> s.keys.current[k])
    ensures forall b :: 0 <= b < MAX_MOUSE_BUTTONS ==>
              !IsMouseButtonPressed(EndFrame(s), b) && !IsMouseButtonReleased(EndFrame(s), b) &&
              (IsMouseButtonHeld(EndFrame(s), b) <==> s.buttons.current[b])
  {
  }
}
