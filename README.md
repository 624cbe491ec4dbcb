# vdshortcut — a verified model of the hotkey core

vdshortcut is a Windows background utility. It installs a low-level keyboard
hook and turns configured key combinations into virtual-desktop operations.
Hold the switch combination and press a digit 1–9 to show that desktop. Hold
the move combination and press a digit to send the focused window there and
follow it. Hold the pin combination to pin or unpin the focused window. Its
configuration is a JSONC file, and comments are stripped from it before the
JSON is parsed.

This project models the three pieces of `src/Program.cs` that carry that
behaviour:

- `Hotkeys.dfy` (module `Hotkeys`) is the hook callback. It tracks the held
  keys in a `set<int>` field of the class `KeyboardHook`. It tests a
  combination with `AreKeysPressed`. It picks the actions in the order pin,
  then move, then switch. It appends each dispatched action to a log and
  returns whether the key is swallowed. The pure functions `NextPressed` and
  `Decide` specify the callback. The lemmas prove the properties the program
  promises about them: the held set follows the last transition of each key,
  pin has priority, move comes before switch, and a key is swallowed exactly
  when an action is dispatched. Scenario lemmas replay the default
  configuration, whose combinations are F13 (0x7C), F13+LShift (0x7C, 0xA0)
  and F13+S (0x7C, 0x53).
- `Desktops.dfy` (module `Desktops`) holds the routines the actions run:
  `SwitchToDesktop`, `MoveWindowToDesktop` and `TogglePinCurrentWindow`. They
  run against the class `DesktopService`, an abstract stand-in for the
  third-party virtual-desktop library. The service has an ordered list of
  desktop identities that `Create` extends at the end. It also has the shown
  desktop, a foreground window handle (0 when nothing has focus), a pinned
  set, a window-to-desktop placement map, and a log of the library calls
  that change state. The desktop-creation loop is written once, as
  `EnsureDesktop`. It creates exactly the missing desktops
  (`CreatesNeeded`), keeps the existing ones in place, and returns the
  snapshot whose position `index` the routine then targets.
- `JsonComments.dfy` (module `JsonComments`) is `RemoveJsonComments`,
  written as loops with the `inString`/`escaped` flags, as in the source. It
  is proved equal to the function `CommentsRemoved`. Lemmas about that
  function give:
  - the drop, keep and cut rule for each line;
  - the quote/escape scan, characterised by a count of unescaped quotes;
  - output lines in input order, each a prefix of its source line;
  - the split/join round trip in both directions;
  - idempotence: stripping twice equals stripping once.

Move-and-switch starts two independent worker threads (src/Program.cs:309-310),
`MoveWindowToDesktop(i)` and `SwitchToDesktop(i)`, and each reads the desktop
list itself. The model logs `Move(i)` then `Switch(i)` in submission order and
claims nothing about which finishes first.

## Model

| member | source | states |
|---|---|---|
| Hotkeys.KeyboardHook.constructor | src/Program.cs:21-26 | the hook starts with no key held and nothing dispatched, and keeps the three configured combinations read-only |
| Hotkeys.KeyboardHook.HookCallback | src/Program.cs:274-329 | the new held set is `NextPressed` of the old one; the dispatched actions are `Decide` of the updated set, appended to the log in order; the key is swallowed (return 1) exactly when some action was dispatched, otherwise it is passed down the hook chain |
| Hotkeys.KeyboardHook.Dispatch | src/Program.cs:336-352 | handing an action to a worker thread appends exactly that action to the dispatched log |
| Hotkeys.NextPressed | src/Program.cs:276-290 | a key is held afterwards iff the event is a processed key-down (WM_KEYDOWN or WM_SYSKEYDOWN) of it, or it was held and the event is not a processed key-up (WM_KEYUP or WM_SYSKEYUP) of it; a negative hook code or another message changes nothing; pressing a held key or releasing an absent key changes nothing |
| Hotkeys.OutcomesFollowReplay | src/Program.cs:274-329 | over a session of hook calls, each event is decided on the held keys after replaying the session up to and including that event, one outcome per event |
| Hotkeys.ReplayTracksLastTransition | src/Program.cs:282-290 | after any sequence of hook calls a key is held iff its last processed transition was a key-down, or it was held at the start and no processed event touched it |
| Hotkeys.AreKeysPressed | src/Program.cs:331-334 | a combination is armed iff it is non-empty and a subset of the held keys, so an empty combination never matches |
| Hotkeys.ComboArmedWhenAllHeld | src/Program.cs:331-334 | a non-empty combination is armed after any event sequence in which each of its keys was last pressed and not released, whatever the order of the presses |
| Hotkeys.ComboDisarmedByRelease | src/Program.cs:287-290 | a processed key-up of any key of a combination leaves the combination not armed |
| Hotkeys.Decide | src/Program.cs:292-325 | only a processed key-down dispatches anything; every move or switch action targets desktop `vkCode - 0x31`, which lies in 0..8 |
| Hotkeys.PinHasPriority | src/Program.cs:292-300 | a processed key-down of any key, digit or not, with the pin combination armed dispatches exactly one TogglePin and no move or switch |
| Hotkeys.MoveBeforeSwitch | src/Program.cs:301-315 | without pin, a digit key-down with the move combination armed dispatches Move(i) then Switch(i) with i = vkCode - 0x31, even when the switch combination is armed too |
| Hotkeys.SwitchAlone | src/Program.cs:316-324 | without pin or move, a digit key-down with the switch combination armed dispatches only Switch(i) |
| Hotkeys.DispatchesIffMatched | src/Program.cs:292-328 | an event dispatches something iff it is a processed key-down and pin is armed, or the key is a digit 1-9 and move or switch is armed; key-ups, negative hook codes, non-digits without pin and bare digits pass through |
| Hotkeys.PinInEitherOrder | src/Program.cs:292-300 | with the default pin combination F13+S, pressing F13 then S or S then F13 toggles the pin on the second key-down and not on the first |
| Hotkeys.PinRetriggers | src/Program.cs:292-300 | holding F13+S, releasing and re-pressing S toggles again, and every auto-repeated key-down of S toggles again |
| Hotkeys.DefaultDigitCombos | src/Program.cs:301-324 | with the default configuration, F13+LShift+3 dispatches Move(2) then Switch(2), F13+3 dispatches Switch(2), and 5 alone dispatches nothing |
| Desktops.CreatesNeeded | src/Program.cs:376-380 | the number of desktops to create is the least k with count + k > index: zero when position index already exists, index + 1 - count otherwise |
| Desktops.EnsureDesktop | src/Program.cs:374-380 | the creation loop, shared with src/Program.cs:387-393, calls Create exactly CreatesNeeded(n, index) times and nothing else; afterwards the list is longer than index, its first n desktops are the old ones in the old order, and the returned snapshot is the current list |
| Desktops.SwitchToDesktop | src/Program.cs:372-383 | after the creation loop the shown desktop is position index of the final list, and the call log is the creates followed by one switch; a negative index throws when the list is indexed and switches nothing |
| Desktops.MoveWindowToDesktop | src/Program.cs:385-400 | the creation loop always runs; with a foreground window the window's placement becomes position index of the final list, and with none no window state changes; a negative index throws only when there is a window |
| Desktops.TogglePinCurrentWindow | src/Program.cs:354-370 | with a foreground window its pin state flips (unpin if pinned, pin otherwise) and every other window keeps its state; with none nothing changes |
| Desktops.Execute | src/Program.cs:309-319 | the worker for TogglePin, Move(i) and Switch(i) runs the matching routine (the TogglePin worker is at src/Program.cs:295); each case has the full effect of its routine: the same creates, call log, shown desktop, placement and pin changes, with every other part of the state unchanged; in the model it throws only for a negative index, which the hook never produces |
| JsonComments.Split | src/Program.cs:192 | splitting on '\n' gives at least one piece and no piece contains '\n' |
| JsonComments.JoinSplit | src/Program.cs:244 | joining the pieces of a split with '\n' gives back the original text |
| JsonComments.SplitJoin | src/Program.cs:244 | splitting a join of a non-empty list of '\n'-free lines gives back the lines |
| JsonComments.TrimStart | src/Program.cs:197 | the result is a suffix of the line; the removed characters are all white space, and the result does not start with white space |
| JsonComments.TrimEnd | src/Program.cs:197 | the result is a prefix of the line; the removed characters are all white space, and the result does not end with white space |
| JsonComments.IndexOfSlashes | src/Program.cs:204 | the result is the first position where `//` starts, or -1 when the line has no `//` |
| JsonComments.ScanCountsQuotes | src/Program.cs:207-228 | the scan ends inside a string iff the prefix has an odd number of quotes that are not escaped, where an odd run of backslashes escapes the next character; it ends escaped iff the prefix ends in an odd run of backslashes |
| JsonComments.StripLine | src/Program.cs:197-241 | what is kept of a line is a prefix of it, so no output line is longer than its source line |
| JsonComments.TrimStartsWithSlashes | src/Program.cs:197-200 | the trimmed line starts with `//` iff `//` is the first thing on the line that is not white space |
| JsonComments.LineDropped | src/Program.cs:197-201 | a line is dropped iff its first non-white-space characters are `//` |
| JsonComments.LineWithoutComment | src/Program.cs:238-241 | a line with no `//` is kept unchanged |
| JsonComments.LineWithComment | src/Program.cs:204-236 | on a line that is not dropped, if an even number of unescaped quotes comes before the first `//`, the line is cut right before it; if the number is odd, the whole line is kept, even when a later `//` exists |
| JsonComments.StripLineStable | src/Program.cs:203-236 | a second pass keeps whatever a first pass kept of a line, unchanged |
| JsonComments.StripLinesOrder | src/Program.cs:195-242 | the output lines are, in input order, what StripLine keeps of exactly the lines it does not drop; they sit at strictly increasing input positions, so there are no more output lines than input lines, and each is a prefix of its source line |
| JsonComments.StripLinesStable | src/Program.cs:195-242 | every output line is kept unchanged by a second pass |
| JsonComments.RemoveJsonComments | src/Program.cs:190-245 | the nested loops and their inString/escaped flags compute CommentsRemoved: the split text, line by line through StripLine, joined with '\n' |
| JsonComments.CommentsRemovedIdempotent | src/Program.cs:190-245 | removing comments from an already stripped text changes nothing |
| JsonComments.CommentsRemovedWithoutSlashes | src/Program.cs:190-245 | a text with no `//` anywhere comes back unchanged |

## Left out

- Win32 plumbing is not modelled: the P/Invoke declarations, `SetHook`, the message loop and Ctrl-C handler of `Main`, and `CallNextHookEx`. These are foreign calls with no behaviour to state here. "Pass on" is the `suppress == false` result.
- `Marshal.ReadInt32(lParam)` is not modelled, because it reads unmanaged memory. The key code is a plain `int` parameter.
- `RunOnSTAThread` is not modelled: thread creation, the STA apartment and the catch-all that logs and drops exceptions. These are concurrency and an exception boundary. Dispatch appends to a log, and `Execute` models one worker running alone. The `thrown` result stands for the exception the catch-all swallows. Nothing is claimed about the order in which workers finish or interleave.
- Desktops.Execute: the model does not show that an exception in one worker leaves later workers and key handling unaffected, because threads are not modelled.
- `LoadConfig` and `CreateDefaultConfig` are not modelled: file I/O, JSON deserialisation and console output. The combinations are constructor inputs. The default values appear only as `Hotkeys.DefaultCombos`.
- All console logging is left out.
- The real `WindowsDesktop.VirtualDesktop` library is replaced by `DesktopService`, because its source is not available. Every library call (`Create`, `Switch`, `MoveToDesktop`, `Pin`, `Unpin`, `IsPinnedWindow`) is assumed to succeed; in the program a failure of any of them reaches the catch-all at src/Program.cs:344-347, which the model does not represent beyond the `thrown` result for a negative index. Another process does not change the desktop list, the foreground window or the pin set while a routine runs. The races the code allows between concurrent workers are not modelled.
- JsonComments.TrimStart: it uses the exact set of characters that `char.IsWhiteSpace` accepts. It treats text as Unicode scalar values, not UTF-16 code units; no white-space character is a surrogate, so the result is the same.
- JsonComments.IndexOfSlashes: it is an ordinal search. The source's `IndexOf("//")` and `StartsWith("//")` are culture-sensitive, and may skip characters the culture ignores (a soft hyphen between the two slashes, for example). The model does not capture that.
