/** The hotkey engine of the low-level keyboard hook: it tracks which keys are
    held, and on each key-down decides whether the held keys arm the pin,
    move or switch combination (in that order of priority), dispatches the
    matching desktop actions and tells the hook chain whether to swallow the
    key. */
module Hotkeys {

  // Window messages that carry key transitions.
  const WM_KEYDOWN: int := 0x0100
  const WM_KEYUP: int := 0x0101
  const WM_SYSKEYDOWN: int := 0x0104
  const WM_SYSKEYUP: int := 0x0105

  // Virtual-key codes of the digit keys 1 and 9.
  const VK_1: int := 0x31
  const VK_9: int := 0x39

  /** A desktop action handed to a worker thread. */
  datatype Action = TogglePin | Move(index: int) | Switch(index: int)

  /** The three configured key combinations, read-only once loaded. */
  datatype Combos = Combos(switchKeys: set<int>, moveKeys: set<int>, pinKeys: set<int>)

  /** One call of the hook: the hook code, the message and the key. */
  datatype KeyEvent = KeyEvent(nCode: int, wParam: int, vkCode: int)

  predicate IsKeyDown(wParam: int)
  {
    wParam == WM_KEYDOWN || wParam == WM_SYSKEYDOWN
  }

  predicate IsKeyUp(wParam: int)
  {
    wParam == WM_KEYUP || wParam == WM_SYSKEYUP
  }

  /** The event is a key-down of key `k` that the hook processes. */
  predicate Presses(e: KeyEvent, k: int)
  {
    e.nCode >= 0 && IsKeyDown(e.wParam) && e.vkCode == k
  }

  /** The event is a key-up of key `k` that the hook processes. */
  predicate Releases(e: KeyEvent, k: int)
  {
    e.nCode >= 0 && IsKeyUp(e.wParam) && e.vkCode == k
  }

  predicate IsDigitKey(vkCode: int)
  {
    VK_1 <= vkCode <= VK_9
  }

  // ---------------------------------------------------------------------------
  // Key-state tracking
  // ---------------------------------------------------------------------------

  /** The set of held keys after the hook has seen `e`: a processed key-down
      adds its key, a processed key-up removes it, and nothing else changes
      the set. */
  function NextPressed(pressed: set<int>, e: KeyEvent): (r: set<int>)
    ensures forall k :: k in r <==> Presses(e, k) || (k in pressed && !Releases(e, k))
  {
    if e.nCode < 0 then pressed
    else if IsKeyDown(e.wParam) then pressed + {e.vkCode}
    else if IsKeyUp(e.wParam) then pressed - {e.vkCode}
    else pressed
  }

  /** The held keys after a whole sequence of hook calls. */
  function Replay(pressed: set<int>, events: seq<KeyEvent>): set<int>
  {
    if events == [] then pressed
    else NextPressed(Replay(pressed, events[..|events| - 1]), events[|events| - 1])
  }

  /** Key `k` has a processed key-down after which no processed event
      concerns `k`: its last transition is a press. */
  ghost predicate HeldAfter(events: seq<KeyEvent>, k: int)
  {
    exists i :: 0 <= i < |events| && Presses(events[i], k) && NotTouchedAfter(events, i, k)
  }

  /** No processed key-down or key-up of `k` after position `i`. */
  ghost predicate NotTouchedAfter(events: seq<KeyEvent>, i: int, k: int)
  {
    forall j :: 0 <= j < |events| && i < j ==> !Presses(events[j], k) && !Releases(events[j], k)
  }

  /** After any sequence of events a key is held exactly when its last
      transition was a press, or it was held at the start and nothing touched
      it since: repeated presses and releases of absent keys change nothing. */
  lemma {:induction false} ReplayTracksLastTransition(pressed: set<int>, events: seq<KeyEvent>, k: int)
    ensures k in Replay(pressed, events) <==>
      HeldAfter(events, k) || (k in pressed && NotTouchedAfter(events, -1, k))
  {
    if events != [] {
      var n := |events| - 1;
      var init, e := events[..n], events[n];
      ReplayTracksLastTransition(pressed, init, k);
      assert forall j :: 0 <= j < n ==> events[j] == init[j];
      if Presses(e, k) {
        assert NotTouchedAfter(events, n, k);
      } else if Releases(e, k) {
        assert !Presses(e, k);
        forall i | 0 <= i < n ensures !NotTouchedAfter(events, i, k) {
          assert Releases(events[n], k);
        }
      } else {
        if HeldAfter(init, k) {
          var i :| 0 <= i < n && Presses(init[i], k) && NotTouchedAfter(init, i, k);
          assert NotTouchedAfter(events, i, k);
        }
        if HeldAfter(events, k) {
          var i :| 0 <= i < |events| && Presses(events[i], k) && NotTouchedAfter(events, i, k);
          assert i < n;
          assert NotTouchedAfter(init, i, k);
        }
      }
    }
  }

  // ---------------------------------------------------------------------------
  // Matching and dispatch decision
  // ---------------------------------------------------------------------------

  /** A combination is armed when it is not empty and all of its keys are
      held; so an empty combination never matches. */
  function AreKeysPressed(requiredKeys: set<int>, pressedKeys: set<int>): (r: bool)
    ensures r <==> requiredKeys != {} && requiredKeys <= pressedKeys
  {
    assert requiredKeys <= pressedKeys <==> forall key :: key in requiredKeys ==> key in pressedKeys by {
      if forall key :: key in requiredKeys ==> key in pressedKeys {
        assert requiredKeys <= pressedKeys;
      }
    }
    |requiredKeys| > 0 && forall key :: key in requiredKeys ==> key in pressedKeys
  }

  /** Holding all keys of a non-empty combination, pressed in any order and
      each not released since its last press, arms it. */
  lemma ComboArmedWhenAllHeld(combo: set<int>, events: seq<KeyEvent>)
    requires combo != {}
    requires forall k :: k in combo ==> HeldAfter(events, k)
    ensures AreKeysPressed(combo, Replay({}, events))
  {
    forall k | k in combo ensures k in Replay({}, events) {
      ReplayTracksLastTransition({}, events, k);
    }
  }

  /** Releasing any key of a combination disarms it. */
  lemma ComboDisarmedByRelease(combo: set<int>, pressed: set<int>, e: KeyEvent)
    requires e.vkCode in combo && Releases(e, e.vkCode)
    ensures !AreKeysPressed(combo, NextPressed(pressed, e))
  {
  }

  /** The actions a processed event dispatches, given the held keys after the
      event has been recorded. Pin is tried first and fires on any key-down;
      only a digit key-down can then match move (which dispatches a move and
      a switch, in that order) or else switch. */
  function Decide(hk: Combos, pressed: set<int>, e: KeyEvent): (r: seq<Action>)
    ensures r != [] ==> e.nCode >= 0 && IsKeyDown(e.wParam)
    ensures forall a :: a in r && !a.TogglePin? ==> a.index == e.vkCode - VK_1 && 0 <= a.index <= 8
  {
    if e.nCode < 0 || !IsKeyDown(e.wParam) then []
    else if AreKeysPressed(hk.pinKeys, pressed) then [TogglePin]
    else if IsDigitKey(e.vkCode) then
      var desktopIndex := e.vkCode - VK_1;
      if AreKeysPressed(hk.moveKeys, pressed) then [Move(desktopIndex), Switch(desktopIndex)]
      else if AreKeysPressed(hk.switchKeys, pressed) then [Switch(desktopIndex)]
      else []
    else []
  }

  /** A key-down with the pin combination held toggles the pin exactly once
      and nothing else, whatever the key. */
  lemma PinHasPriority(hk: Combos, pressed: set<int>, e: KeyEvent)
    requires Presses(e, e.vkCode) && AreKeysPressed(hk.pinKeys, pressed)
    ensures Decide(hk, pressed, e) == [TogglePin]
  {
  }

  /** Without the pin combination, a digit key-down with the move combination
      held moves the window and then switches, to the digit's desktop, even
      when the switch combination is held too. */
  lemma MoveBeforeSwitch(hk: Combos, pressed: set<int>, e: KeyEvent)
    requires Presses(e, e.vkCode) && IsDigitKey(e.vkCode)
    requires !AreKeysPressed(hk.pinKeys, pressed) && AreKeysPressed(hk.moveKeys, pressed)
    ensures Decide(hk, pressed, e) == [Move(e.vkCode - VK_1), Switch(e.vkCode - VK_1)]
  {
  }

  /** With only the switch combination held, a digit key-down switches. */
  lemma SwitchAlone(hk: Combos, pressed: set<int>, e: KeyEvent)
    requires Presses(e, e.vkCode) && IsDigitKey(e.vkCode)
    requires !AreKeysPressed(hk.pinKeys, pressed) && !AreKeysPressed(hk.moveKeys, pressed)
    requires AreKeysPressed(hk.switchKeys, pressed)
    ensures Decide(hk, pressed, e) == [Switch(e.vkCode - VK_1)]
  {
  }

  /** An event dispatches something exactly when it is a processed key-down
      and either the pin combination is armed, or the key is a digit and the
      move or the switch combination is armed. Key-ups, events with a
      negative hook code, other keys without pin, and bare digits pass. */
  lemma DispatchesIffMatched(hk: Combos, pressed: set<int>, e: KeyEvent)
    ensures Decide(hk, pressed, e) != [] <==>
      e.nCode >= 0 && IsKeyDown(e.wParam) &&
      (AreKeysPressed(hk.pinKeys, pressed) ||
       (IsDigitKey(e.vkCode) &&
        (AreKeysPressed(hk.moveKeys, pressed) || AreKeysPressed(hk.switchKeys, pressed))))
  {
  }

  // ---------------------------------------------------------------------------
  // The hook callback
  // ---------------------------------------------------------------------------

  /** The state the hook callback owns: the configured combinations, the held
      keys, and the actions handed to worker threads so far. */
  class KeyboardHook {
    const hotkeys: Combos
    var pressedKeys: set<int>
    var dispatched: seq<Action>

    constructor (hotkeys: Combos)
      ensures this.hotkeys == hotkeys && pressedKeys == {} && dispatched == []
    {
      this.hotkeys := hotkeys;
      pressedKeys := {};
      dispatched := [];
    }

    /** Hand an action to a worker thread. */
    method Dispatch(a: Action)
      modifies this`dispatched
      ensures dispatched == old(dispatched) + [a]
    {
      dispatched := dispatched + [a];
    }

    /** Record the key transition, dispatch the matching actions and say
        whether the key is swallowed (`suppress`) or passed on down the hook
        chain. It swallows the key exactly when it dispatched something. */
    method HookCallback(nCode: int, wParam: int, vkCode: int) returns (suppress: bool, actions: seq<Action>)
      modifies this`pressedKeys, this`dispatched
      ensures pressedKeys == NextPressed(old(pressedKeys), KeyEvent(nCode, wParam, vkCode))
      ensures actions == Decide(hotkeys, pressedKeys, KeyEvent(nCode, wParam, vkCode))
      ensures suppress <==> actions != []
      ensures dispatched == old(dispatched) + actions
    {
      actions := [];
      if nCode >= 0 {
        var isKeyDown := wParam == WM_KEYDOWN || wParam == WM_SYSKEYDOWN;
        var isKeyUp := wParam == WM_KEYUP || wParam == WM_SYSKEYUP;

        if isKeyDown {
          pressedKeys := pressedKeys + {vkCode};
        } else if isKeyUp {
          pressedKeys := pressedKeys - {vkCode};
        }

        if isKeyDown && AreKeysPressed(hotkeys.pinKeys, pressedKeys) {
          Dispatch(TogglePin);
          actions := actions + [TogglePin];
          return true, actions;
        }
        if isKeyDown && vkCode >= VK_1 && vkCode <= VK_9 {
          var desktopIndex := vkCode - VK_1;
          if AreKeysPressed(hotkeys.moveKeys, pressedKeys) {
            Dispatch(Move(desktopIndex));
            Dispatch(Switch(desktopIndex));
            actions := actions + [Move(desktopIndex), Switch(desktopIndex)];
            return true, actions;
          } else if AreKeysPressed(hotkeys.switchKeys, pressedKeys) {
            Dispatch(Switch(desktopIndex));
            actions := actions + [Switch(desktopIndex)];
            return true, actions;
          }
        }
      }
      suppress := false;
    }
  }

  // ---------------------------------------------------------------------------
  // Whole sessions
  // ---------------------------------------------------------------------------

  /** The actions each event of a session dispatches, in order, starting
      from the held keys `pressed`. */
  function Outcomes(hk: Combos, pressed: set<int>, events: seq<KeyEvent>): seq<seq<Action>>
    decreases |events|
  {
    if events == [] then []
    else
      var next := NextPressed(pressed, events[0]);
      [Decide(hk, next, events[0])] + Outcomes(hk, next, events[1..])
  }

  /** The combinations the default configuration file sets up: F13 to switch,
      F13 with left Shift to move, F13 with S to pin. */
  const DefaultCombos: Combos := Combos({0x7C}, {0x7C, 0xA0}, {0x7C, 0x53})

  function Down(k: int): KeyEvent { KeyEvent(0, WM_KEYDOWN, k) }
  function Up(k: int): KeyEvent { KeyEvent(0, WM_KEYUP, k) }

  /** Replaying a first event and then the rest is replaying the rest from
      the held keys the first event leaves. */
  lemma {:induction false} ReplayCons(pressed: set<int>, e: KeyEvent, rest: seq<KeyEvent>)
    ensures Replay(pressed, [e] + rest) == Replay(NextPressed(pressed, e), rest)
    decreases |rest|
  {
    if rest == [] {
      assert ([e] + rest)[..0] == [];
    } else {
      var n := |rest| - 1;
      ReplayCons(pressed, e, rest[..n]);
      assert ([e] + rest)[..|[e] + rest| - 1] == [e] + rest[..n];
    }
  }

  /** Each event of a session is decided on the held keys that replaying the
      session up to and including that event gives: the per-event decisions
      are those of successive HookCallback calls. */
  lemma {:induction false} OutcomesFollowReplay(hk: Combos, pressed: set<int>, events: seq<KeyEvent>)
    ensures |Outcomes(hk, pressed, events)| == |events|
    ensures forall i :: 0 <= i < |events| ==>
      Outcomes(hk, pressed, events)[i] == Decide(hk, Replay(pressed, events[..i + 1]), events[i])
    decreases |events|
  {
    if events != [] {
      var e, rest := events[0], events[1..];
      var next := NextPressed(pressed, e);
      OutcomesFollowReplay(hk, next, rest);
      assert [e] + rest == events;
      assert events[..1] == [e] + [];
      assert Replay(pressed, [e]) == next by {
        ReplayCons(pressed, e, []);
      }
      forall i | 1 <= i < |events|
        ensures Outcomes(hk, pressed, events)[i] == Decide(hk, Replay(pressed, events[..i + 1]), events[i])
      {
        assert events[..i + 1] == [e] + rest[..i];
        ReplayCons(pressed, e, rest[..i]);
      }
    }
  }

  /** Unfolds Outcomes over its first event. */
  lemma OutcomesCons(hk: Combos, pressed: set<int>, e: KeyEvent, rest: seq<KeyEvent>)
    ensures Outcomes(hk, pressed, [e] + rest)
         == [Decide(hk, NextPressed(pressed, e), e)] + Outcomes(hk, NextPressed(pressed, e), rest)
  {
    assert ([e] + rest)[1..] == rest;
  }

  /** Pin fires whichever of its keys goes down last. */
  lemma PinInEitherOrder()
    ensures Outcomes(DefaultCombos, {}, [Down(0x7C), Down(0x53)]) == [[], [TogglePin]]
    ensures Outcomes(DefaultCombos, {}, [Down(0x53), Down(0x7C)]) == [[], [TogglePin]]
  {
    assert NextPressed({}, Down(0x7C)) == {0x7C};
    assert NextPressed({0x7C}, Down(0x53)) == {0x7C, 0x53};
    OutcomesCons(DefaultCombos, {0x7C}, Down(0x53), []);
    OutcomesCons(DefaultCombos, {}, Down(0x7C), [Down(0x53)]);
    assert NextPressed({}, Down(0x53)) == {0x53};
    assert NextPressed({0x53}, Down(0x7C)) == {0x7C, 0x53};
    OutcomesCons(DefaultCombos, {0x53}, Down(0x7C), []);
    OutcomesCons(DefaultCombos, {}, Down(0x53), [Down(0x7C)]);
  }

  /** Pin fires again when a combination key is released and pressed again,
      and on each auto-repeated key-down while the combination is held. */
  lemma PinRetriggers()
    ensures Outcomes(DefaultCombos, {}, [Down(0x7C), Down(0x53), Up(0x53), Down(0x53), Down(0x53)])
         == [[], [TogglePin], [], [TogglePin], [TogglePin]]
  {
    var held, f13 := {0x7C, 0x53}, {0x7C};
    assert NextPressed({}, Down(0x7C)) == f13;
    assert NextPressed(f13, Down(0x53)) == held;
    assert NextPressed(held, Down(0x53)) == held;
    assert NextPressed(held, Up(0x53)) == f13;
    OutcomesCons(DefaultCombos, held, Down(0x53), []);
    OutcomesCons(DefaultCombos, f13, Down(0x53), [Down(0x53)]);
    OutcomesCons(DefaultCombos, held, Up(0x53), [Down(0x53), Down(0x53)]);
    OutcomesCons(DefaultCombos, f13, Down(0x53), [Up(0x53), Down(0x53), Down(0x53)]);
    OutcomesCons(DefaultCombos, {}, Down(0x7C), [Down(0x53), Up(0x53), Down(0x53), Down(0x53)]);
  }

  /** With F13, left Shift and 3 held the window moves to the third desktop
      and the view follows; the switch combination alone never wins; a bare
      digit passes through. */
  lemma DefaultDigitCombos()
    ensures Outcomes(DefaultCombos, {}, [Down(0x7C), Down(0xA0), Down(0x33)])
         == [[], [], [Move(2), Switch(2)]]
    ensures Outcomes(DefaultCombos, {}, [Down(0x7C), Down(0x33)]) == [[], [Switch(2)]]
    ensures Outcomes(DefaultCombos, {}, [Down(0x35)]) == [[]]
  {
    var e1 := [Down(0x7C), Down(0xA0), Down(0x33)];
    assert e1[1..] == [Down(0xA0), Down(0x33)];
    assert e1[1..][1..] == [Down(0x33)];
    assert NextPressed({0x7C}, Down(0xA0)) == {0x7C, 0xA0};
    assert NextPressed({0x7C, 0xA0}, Down(0x33)) == {0x7C, 0xA0, 0x33};
    var e2 := [Down(0x7C), Down(0x33)];
    assert e2[1..] == [Down(0x33)];
    assert NextPressed({0x7C}, Down(0x33)) == {0x7C, 0x33};
  }
}
