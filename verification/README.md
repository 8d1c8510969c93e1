# Macro recorder: recorder and replay engine in Dafny

This project models the core of a desktop macro recorder ("Pilot"). The recorder
captures mouse and keyboard input as a list of event records. The player
replays that list through the OS input-injection libraries, a given number of
times, and can be cancelled. The repository holds two prototypes, and both are
modelled side by side because they differ in ways that matter:

- **app.py** (`MacroRecorder`, `MacroPlayer`, `MacroApp`). Events carry a
  relative `delay` (seconds since the previous event, 0 for the first). The
  callbacks ignore input while not recording. A repeat count `<= 0` replays
  forever. The stop request is a `threading.Event`, checked before each event.
- **recorder.py / player.py** (`MacroRecorder`, `MacroPlayer`). Events carry a
  `time` (seconds since `start`). The callbacks always append. Only a repeat
  count of `0` replays forever, and a negative count replays nothing. Before
  each event, the player sleeps until the event's timestamp, measured from the
  start of the pass. Stopping clears the `playing` flag.
- **settings.py** (`SettingsManager`): the default settings, the
  "Save Playback Count" handler and the always-on-top toggle.

The model is functional:

- Events and actions are immutable datatypes.
- Recorders and settings are record-valued state transitions.
- Each player is a pure function from the event list, the repeat count, a clock
  and a stop oracle to a `Run`. A `Run` holds:
  - the emitted action trace (`Sleep`, `MoveTo`, `Press`, `Click`, `KeyDown`, …);
  - the number of events fully processed;
  - how the run ended: `Completed`, `Cancelled`, or `Raised` when an exception
    escaped.
- A player returns `None` exactly when the Python call would never return.

Stop requests and time are modelled like this:

- The stop request is the oracle `stop: Option<nat>`. `Some(c)` means the check
  before global step `c` is the first to see the request. Step `k` handles event
  `k mod n` of pass `k div n`.
- `time.time()` becomes given clock readings.
- `time.sleep` becomes a `Sleep` action.
- Python's `int()` on a string is modelled in `PyInt`: surrounding whitespace,
  an optional sign, and decimal digits with single underscores between them.

Modules: `Common`, `Playback` (the replay loop both players share), `PyInt`,
`AppEvents`, `AppRecorder`, `AppPlayer`, `AppControl`, `PilotEvents`,
`PilotRecorder`, `PilotPlayer`, `Settings`, and `Conventions` (lemmas that
compare the two prototypes).

Where the two prototypes behave differently, or less strictly than their names
suggest, the model keeps what each one does:

- Repeat counts: app.py loops until cancelled for any count of 0 or below.
  player.py loops only for 0 and plays nothing for a negative count
  (`Conventions.RepeatCounts`).
- Neither recorder refuses a second `start` while recording. Each call empties
  the list, but it also starts a fresh pair of pynput listeners without
  stopping the running pair (see "Left out").
- Neither player refuses a second `play`. app.py's Play button stops a running
  playback instead of starting another.
- Keys that cannot be resolved during playback:
  - player.py swallows every key error, so such a key is skipped.
  - app.py hands an unknown key name to pynput as `None`. Whether pynput then
    raises is the model's `Devices.noneKeyRaises` flag.
  - In app.py, an unknown mouse button name raises `AttributeError` and ends
    the playback.
- Hotkey names: settings.py's defaults are "F10" and "F6". app.py uses "f10"
  and "f6".

## Model

| member | source | states |
|---|---|---|
| `AppRecorder.Init` | app.py:15-20 | a new recorder has no events, is not recording and has no previous clock reading |
| `AppRecorder.TimeDelta` | app.py:22-26 | the delay is 0 when there is no previous reading, and otherwise satisfies previous + delay = now; `now` becomes the previous reading |
| `AppRecorder.KeyName` | app.py:64 | the key name is the key's character when that is a non-empty string, and the special key's name otherwise |
| `AppRecorder.OnMove` | app.py:29-36 | when not recording, the recorder is unchanged; when recording, exactly one `move` event with the position and the `_time_delta` delay is appended after the earlier events |
| `AppRecorder.OnClick` | app.py:38-47 | the same for a `click` event with position, button name and `pressed` |
| `AppRecorder.OnScroll` | app.py:49-58 | the same for a `scroll` event with position and scroll amounts |
| `AppRecorder.OnKey` | app.py:61-81 | when not recording, or when the key has no name, the recorder is unchanged; otherwise exactly one `key` event with `press`/`release` and the key name is appended |
| `AppRecorder.Start` | app.py:83-86 | `start` empties the list, sets `recording` and forgets the previous reading, so the next delay is 0 |
| `AppRecorder.Stop` | app.py:96-103 | `stop` clears `recording` and keeps the captured events |
| `AppRecorder.FeedIdle` | app.py:29-81 | once recording has stopped, no sequence of inputs changes the recorder |
| `AppRecorder.FeedExtends` | app.py:29-81 | inputs only append: the earlier events stay in place, with at most one new event per input |
| `AppRecorder.Session` | app.py:22-86 | after `start`, each recordable input becomes exactly one well-shaped event, in order, whose delay is 0 for the first input and the gap between consecutive clock readings afterwards |
| `Playback.RunFrom` | app.py:116-119 | the loop of both players (player.py:12-16 is the same loop): a run ends at the first step that reaches the step limit, sees the stop request or raises, checked in that order; its trace is every completed step's actions, then what the raising step did |
| `Playback.NothingEndsEarly` | app.py:116-119 | every step a run performed was below the step limit, saw no stop request and did not raise |
| `Playback.CyclicPasses` | app.py:116-117 | the first r passes of the nested loop handle the whole event list r times over, each pass in list order |
| `AppPlayer.ResolveKey` | app.py:135-138 | a name pynput knows resolves to that special key; otherwise a one-character name resolves to the character; otherwise the result is `None` (both directions) |
| `AppPlayer.Act` | app.py:121-142 | which events raise once the sleep is done: a missing field, an unknown button, and an unresolvable key when pynput refuses `None`; a raising event has done nothing but, for a pointer event, the move; a move does exactly the move; the exact actions of a click, a scroll and a key press or release; an unknown type does nothing |
| `AppPlayer.Dispatch` | app.py:120 | a negative delay raises before anything is done; otherwise a sleep of the delay (0 when absent) comes first and the event's action follows |
| `AppPlayer.Play` | app.py:112-143 | `play` never returns exactly when repeat <= 0 and either the macro is empty, or no stop comes and no event raises; a completed run did repeat × n events; a cancelled run saw the stop; a raised run stopped at an event that raises |
| `AppPlayer.FullPlayback` | app.py:116-143 | with repeat > 0, no stop and nothing raising, the trace is `repeat` copies of one pass over the events in list order |
| `AppPlayer.StoppedPlayback` | app.py:118-119 | a stop seen before step c, with no earlier step raising, ends the run with exactly the first c events' actions, a prefix of the unstopped trace, for finite and endless repeat counts |
| `AppPlayer.DispatchSleeps` | app.py:120 | an event that does not raise sleeps exactly its delay |
| `Playback.PacedSum` | app.py:117-120 | when the clock only advances during sleeps and each event sleeps a fixed time, event i of a pass is handled at the start plus the fixed times of events 0..i |
| `AppPlayer.IdealTimesAccumulate` | app.py:117-120 | with a clock that advances only during sleeps, event i acts at the sum of the delays of events 0..i |
| `AppControl.Init` | app.py:155-163 | the app starts with an empty macro, repeat text "1", hotkeys "f10"/"f6" and always-on-top off |
| `AppControl.ToggleRecord` | app.py:198-205 | stopping copies the captured events into the macro; starting clears the recorder's list and keeps the previous macro |
| `AppControl.RepeatCount` | app.py:216-219 | the repeat count is the parsed integer, or 1 when `int()` raises |
| `AppControl.TogglePlay` | app.py:207-229 | a live playback thread is stopped; otherwise an empty macro is refused, and a non-empty one is launched with the parsed repeat count |
| `AppControl.RecordThenPlay` | app.py:198-219 | Rec, inputs, Rec: the macro is exactly the session's events, and Play refuses it exactly when there were no inputs |
| `AppControl.DefaultRepeatIsOnce` | app.py:161 | the default repeat text plays the macro once |
| `PyInt.ParseShow` | app.py:217 | `int()` of any integer's decimal text gives that integer back, unless the text has more than 4300 digits, when `int()` raises (CPython's default conversion limit) |
| `PyInt.ParsePadded` | app.py:217 | the whitespace `int()` strips (Unicode whitespace except U+001C..U+001F) around the text does not change what `int()` returns |
| `PyInt.NoDigitIsRejected` | settings.py:28-31 | text without a digit makes `int()` raise |
| `PilotRecorder.Init` | recorder.py:5-10 | a new recorder has no events, no start time and is not recording |
| `PilotRecorder.Start` | recorder.py:12-15 | `start` empties the list, takes the clock reading as the time origin and sets `recording` |
| `PilotRecorder.Stop` | recorder.py:23-28 | `stop` clears `recording` and keeps the events and the origin |
| `PilotRecorder.RecordEvent` | recorder.py:30-32 | appends exactly one record stamped now - start time after the earlier ones; raises exactly when there is no start time |
| `PilotRecorder.Shape` | recorder.py:34-44 | each callback writes the type `click`/`move`/`key_press`/`key_release` with its data fields |
| `PilotRecorder.NotGated` | recorder.py:34-44 | the callbacks append whether or not `recording` is set, with the same records either way |
| `PilotRecorder.Session` | recorder.py:30-44 | after `start` at t0, each input becomes exactly one record, in order, stamped clock[i] - t0 |
| `PilotRecorder.StampsOrdered` | recorder.py:30-32 | with a clock that never runs backwards, a session's stamps are non-negative and non-decreasing |
| `PilotPlayer.Unquote` | player.py:27 | the result has no quote character and is no longer than the text; text without quotes is unchanged; a single character is dropped exactly when it is a quote |
| `PilotPlayer.UnquoteConcat` | player.py:27 | quotes are removed piece by piece: unquoting a concatenation concatenates the unquoted pieces |
| `PilotPlayer.Wait` | player.py:17-19 | a sleep of timestamp - elapsed happens exactly when that value is positive |
| `PilotPlayer.Act` | player.py:21-34 | one event raises exactly when a click or move lacks its data fields, and then does nothing; only a pressed click clicks; a move moves to the recorded position; keys pass the unquoted key text, and a key event without a key field does nothing and does not raise; other types do nothing |
| `PilotPlayer.Dispatch` | player.py:17-34 | an event first waits for its timestamp, then acts, and raises exactly when its action does |
| `PilotPlayer.StepRaises` | player.py:21-24 | a global step raises exactly when the event it handles lacks the fields its type reads |
| `PilotPlayer.StepInPass` | player.py:13-17 | step j of pass q handles `events[j]`, timed against the clock reading taken when pass q began |
| `Playback.TimedByPass` | player.py:12-14 | the first r passes of the nested loop run one after the other, pass q handing each event in list order to the handler along with q |
| `PilotPlayer.Stop` | player.py:38-39 | `stop` clears the `playing` flag |
| `PilotPlayer.Play` | player.py:9-36 | `play` never returns exactly when the count is 0, no stop comes and nothing raises; a negative count plays nothing; a completed run did count × n events; `playing` is false afterwards unless an exception escaped |
| `PilotPlayer.FullPlayback` | player.py:12-35 | with count > 0, no stop and nothing raising, the trace is the `count` passes one after the other, each dispatching every event in list order timed against the clock reading at the start of its pass; the run completes and `playing` is reset |
| `PilotPlayer.StoppedPlayback` | player.py:12-16 | a stop seen before step c, with no earlier step raising, leaves exactly the first c events' actions, a prefix of the unstopped trace |
| `PilotPlayer.DispatchSleeps` | player.py:17-19 | an event waits until its timestamp, and no longer |
| `Playback.PacedLatest` | player.py:17-19 | when the clock only advances during sleeps and each event waits until its own time and no longer, event i is handled at the latest time among the start and events 0..i |
| `PilotPlayer.IdealTimesAreLatest` | player.py:13-19 | with a clock that advances only during sleeps, event i fires at the latest timestamp among events 0..i |
| `PilotPlayer.SortedEventsOnTime` | player.py:13-19 | non-decreasing timestamps are each met exactly |
| `Settings.Defaults` | settings.py:4-8 | always-on-top off, playback count 1, hotkeys "F10" and "F6" |
| `Settings.SaveCount` | settings.py:26-31 | a parseable text sets the count to exactly that integer; otherwise the count becomes 1; the flag and the hotkeys are untouched |
| `Settings.ToggleAlwaysOnTop` | settings.py:38-39 | the flag flips and nothing else changes |
| `Settings.ToggleTwice` | settings.py:38-39 | toggling always-on-top twice restores the settings |
| `Settings.SaveShownCount` | settings.py:26-29 | saving any integer's text, 0 and negatives included, stores that integer; text of more than 4300 digits resets the count to 1 |
| `Settings.SaveNonNumber` | settings.py:30-31 | saving text without digits resets the count to 1, whatever it was |
| `Settings.SaveUnchangedCount` | settings.py:22-31 | saving the prefilled text leaves the settings unchanged, unless the count has more than 4300 digits, when it resets to 1 |
| `Conventions.RepeatCounts` | player.py:12 | for a non-empty macro with no stop and nothing raising, a negative count loops forever in app.py and plays nothing in player.py; 0 loops forever in both; a positive count plays that many passes in both |
| `Conventions.AppRecordedReplay` | app.py:117-120 | a macro app.py recorded with a clock that never runs backwards replays without raising, and event i acts clock[i] - clock[0] into each pass |
| `Conventions.PilotRecordedReplay` | player.py:13-19 | a macro recorder.py recorded from t0 replays without raising, and event i acts clock[i] - t0 into each pass |
| `Conventions.TimingConventions` | recorder.py:30-32 | for the same inputs, player.py acts on every event later than app.py by exactly the wait between `start` and the first input |

## Left out

- The GUI is left out: tkinter and customtkinter windows, buttons, message boxes, `open_settings`, `_update_on_top` and `open_window` are display glue.
- pynput listeners and `GlobalHotKeys` are left out, as are `_set_hotkeys` and `_change_hotkey`. The callbacks are modelled as plain calls, one per input.
- Injection libraries are left out: pynput controllers, pyautogui and `keyboard`. They are replaced by the action trace, and what they do with their arguments is not modelled. What pynput does with a `None` key is the `Devices.noneKeyRaises` parameter; either way, no key is pressed.
- Threads are left out: the playback thread, `threading.Event`, and `join`. A stop request is the `stop` oracle, and whether the playback thread is alive is an input to `AppControl.TogglePlay`.
- A stop request during a sleep is left out. The loop checks stop only before an event, so the model does too.
- Saving and loading files is left out: `open_macro`, `save_macro`, storage.py. These wrap `json.load` and `json.dump`.
- main.py is left out. It only wires these objects to buttons.
- Floating-point time is modelled as exact `real` arithmetic.
- An exception inside a pynput callback stops the listener. The model only leaves the recorder unchanged for that input.
- The recorder.py callbacks take `str(button)` and `str(key)` as given text.
- app.py fields whose values have the wrong Python type are left out. Only a missing field or an unknown name is modelled.
- A missing `type` key in an app.py event (app.py:121), or a missing `type` or `time` key in a player.py event (player.py:17, 21), raises `KeyError`. The event datatypes always carry these keys, so this case is not expressible. Only the fields an event's type reads may be missing.
- PyInt.ParseInt: accepts only ASCII decimal digits. Python's `int()` also accepts the other Unicode decimal digits (`int('５') == 5`), and a Tk entry field accepts any text, so such input is parsed as an error where Python returns a number. The whitespace `int()` strips and the 4300-digit limit are modelled.
- PyInt.NoDigitIsRejected: "without a digit" means without an ASCII digit. Text whose only digits are other Unicode decimal digits is rejected by the model but accepted by `int()`.
- Settings.SaveNonNumber: the same restriction. Text whose only digits are non-ASCII decimal digits resets the count in the model, but `int()` would parse it and store that number.
- AppRecorder.Start: models `start` as beginning a new, empty recording. app.py:87-94 also starts a new pair of pynput listeners without stopping a running pair. After a second `start` while recording, each input is recorded once per live pair, and `stop` (app.py:96-103) stops only the newest pair. Listeners are not modelled.
- PilotRecorder.Start: the same, for recorder.py:17-21. Here the callbacks are not gated on `recording` (recorder.py:34-44), and `stop` (recorder.py:23-28) stops only the newest pair, so listeners left from an earlier `start` keep appending after `stop`.
- AppPlayer.IdealTimesAccumulate: states timing for an ideal clock that advances only while sleeping. Real scheduling delays are not modelled.
- PilotPlayer.IdealTimesAreLatest: the same ideal-clock assumption. `PilotPlayer.Play` itself takes arbitrary clock readings.
