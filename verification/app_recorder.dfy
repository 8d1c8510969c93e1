/**
 `MacroRecorder` of app.py as a record-valued state machine. The pynput
 listeners become plain calls of the callbacks, each given the clock reading
 `time.time()` returns at that moment.
 */
module AppRecorder {
  import opened Common
  import opened AppEvents

  /** A pynput key as the callbacks see it: `ch` is the `char` attribute of character
      keys (`None` when the key produces no character, absent on special keys),
      `name` the attribute of special keys (absent on character keys). */
  datatype Key = Key(ch: Option<string>, name: Option<string>)

  /** One input notification, as delivered to the matching callback. */
  datatype Input =
    | MoveInput(x: int, y: int)
    | ClickInput(x: int, y: int, button: string, pressed: bool)   // `button.name`
    | ScrollInput(x: int, y: int, dx: int, dy: int)
    | PressInput(key: Key)
    | ReleaseInput(key: Key)

  datatype Recorder = Recorder(events: seq<Event>, recording: bool, lastTime: Option<real>)

  function Init(): (r: Recorder)
    ensures r.events == [] && !r.recording && r.lastTime.None?
  {
    Recorder([], false, None)
  }

  /** `getattr(key, 'char', None) or key.name`: the character when it is a
      non-empty string, else the special key's name; `None` where reading
      `key.name` raises `AttributeError` (a character key without a character). */
  function KeyName(k: Key): (n: Option<string>)
    ensures k.ch.Some? && k.ch.value != "" ==> n == k.ch
    ensures k.ch.None? || k.ch.value == "" ==> n == k.name
  {
    match k.ch
    case Some(c) => if c != "" then Some(c) else k.name
    case None => k.name
  }

  /** `_time_delta`: seconds since the previous reading, 0 for the first one
      after `start`, and the reading is remembered. */
  function TimeDelta(r: Recorder, now: real): (res: (real, Recorder))
    ensures r.lastTime.None? ==> res.0 == 0.0
    ensures r.lastTime.Some? ==> r.lastTime.value + res.0 == now
    ensures res.1 == r.(lastTime := Some(now))
  {
    var delta := if r.lastTime.None? then 0.0 else now - r.lastTime.value;
    (delta, r.(lastTime := Some(now)))
  }

  /** The state after a callback appended `e` at clock reading `now`: the earlier
      events are kept, `e` is last, and `now` becomes the previous reading. */
  ghost predicate Appended(r: Recorder, r': Recorder, kind: string, fields: Fields, now: real)
  {
    && r'.events == r.events + [Event(kind, fields, Some(TimeDelta(r, now).0))]
    && r'.recording == r.recording
    && r'.lastTime == Some(now)
  }

  /** The shared body of the callbacks once they pass the `recording` gate. */
  function Append(r: Recorder, kind: string, fields: Fields, now: real): Recorder
  {
    var (delta, r') := TimeDelta(r, now);
    r'.(events := r.events + [Event(kind, fields, Some(delta))])
  }

  /** `_on_move`. */
  function OnMove(r: Recorder, x: int, y: int, now: real): (r': Recorder)
    ensures !r.recording ==> r' == r
    ensures r.recording ==> Appended(r, r', "move", Pointer(x, y), now)
  {
    if !r.recording then r else Append(r, "move", Pointer(x, y), now)
  }

  /** `_on_click`: the button's name and whether it went down. */
  function OnClick(r: Recorder, x: int, y: int, button: string, pressed: bool, now: real): (r': Recorder)
    ensures !r.recording ==> r' == r
    ensures r.recording ==> Appended(r, r', "click", ButtonFields(x, y, button, pressed), now)
  {
    if !r.recording then r else Append(r, "click", ButtonFields(x, y, button, pressed), now)
  }

  /** `_on_scroll`. */
  function OnScroll(r: Recorder, x: int, y: int, dx: int, dy: int, now: real): (r': Recorder)
    ensures !r.recording ==> r' == r
    ensures r.recording ==> Appended(r, r', "scroll", Wheel(x, y, dx, dy), now)
  {
    if !r.recording then r else Append(r, "scroll", Wheel(x, y, dx, dy), now)
  }

  /** `_on_press` and `_on_release`. The key's name is read before the clock,
      so a key without a name raises before anything is appended or read. */
  function OnKey(r: Recorder, event: string, k: Key, now: real): (r': Recorder)
    ensures !r.recording || KeyName(k).None? ==> r' == r
    ensures r.recording && KeyName(k).Some? ==> Appended(r, r', "key", KeyFields(event, KeyName(k).value), now)
  {
    if !r.recording then r
    else match KeyName(k)
      case None => r
      case Some(name) => Append(r, "key", KeyFields(event, name), now)
  }

  /** `start`: a new, empty recording whose first event will have delay 0. */
  function Start(r: Recorder): (r': Recorder)
    ensures r'.events == [] && r'.recording && r'.lastTime.None?
  {
    Recorder([], true, None)
  }

  /** `stop`: recording ends; the captured events stay as they are. */
  function Stop(r: Recorder): (r': Recorder)
    ensures r'.events == r.events && !r'.recording
  {
    r.(recording := false)
  }

  /** Delivers one input to its callback. */
  function Deliver(r: Recorder, input: Input, now: real): Recorder
  {
    match input
    case MoveInput(x, y) => OnMove(r, x, y, now)
    case ClickInput(x, y, b, p) => OnClick(r, x, y, b, p, now)
    case ScrollInput(x, y, dx, dy) => OnScroll(r, x, y, dx, dy, now)
    case PressInput(k) => OnKey(r, "press", k, now)
    case ReleaseInput(k) => OnKey(r, "release", k, now)
  }

  /** Delivers `inputs` in order, `inputs[i]` at clock reading `clock[i]`. */
  function Feed(r: Recorder, inputs: seq<Input>, clock: seq<real>): Recorder
    requires |clock| == |inputs|
  {
    if |inputs| == 0 then r
    else Deliver(Feed(r, inputs[..|inputs| - 1], clock[..|clock| - 1]), inputs[|inputs| - 1], clock[|clock| - 1])
  }

  /** The input is one the callbacks record (a key input whose key has a name). */
  predicate Recordable(input: Input)
  {
    (input.PressInput? || input.ReleaseInput?) ==> KeyName(input.key).Some?
  }

  /** The event a callback writes for `input`, apart from its delay. */
  function Shape(input: Input): (string, Fields)
    requires Recordable(input)
  {
    match input
    case MoveInput(x, y) => ("move", Pointer(x, y))
    case ClickInput(x, y, b, p) => ("click", ButtonFields(x, y, b, p))
    case ScrollInput(x, y, dx, dy) => ("scroll", Wheel(x, y, dx, dy))
    case PressInput(k) => ("key", KeyFields("press", KeyName(k).value))
    case ReleaseInput(k) => ("key", KeyFields("release", KeyName(k).value))
  }

  /** The delay recorded with the `i`-th input of a session: 0 for the first,
      the gap between consecutive clock readings after that. */
  function Gap(clock: seq<real>, i: nat): real
    requires i < |clock|
  {
    if i == 0 then 0.0 else clock[i] - clock[i - 1]
  }

  /** Once recording has stopped, no input changes the recorder. */
  lemma {:induction false} FeedIdle(r: Recorder, inputs: seq<Input>, clock: seq<real>)
    requires |clock| == |inputs|
    requires !r.recording
    ensures Feed(r, inputs, clock) == r
  {
    if |inputs| > 0 {
      FeedIdle(r, inputs[..|inputs| - 1], clock[..|clock| - 1]);
    }
  }

  /** Inputs only ever append: what was captured before stays, in place. */
  lemma {:induction false} FeedExtends(r: Recorder, inputs: seq<Input>, clock: seq<real>)
    requires |clock| == |inputs|
    ensures |r.events| <= |Feed(r, inputs, clock).events|
    ensures Feed(r, inputs, clock).events[..|r.events|] == r.events
    ensures |Feed(r, inputs, clock).events| <= |r.events| + |inputs|
  {
    if |inputs| > 0 {
      FeedExtends(r, inputs[..|inputs| - 1], clock[..|clock| - 1]);
    }
  }

  /** A whole recording session: after `start`, inputs the callbacks accept are
      captured one event each, in order, with the shape of their input and the
      gap to the previous input's clock reading as delay (0 for the first);
      every captured event has the fields its type names. */
  lemma {:induction false} Session(r: Recorder, inputs: seq<Input>, clock: seq<real>)
    requires |clock| == |inputs|
    requires forall i :: 0 <= i < |inputs| ==> Recordable(inputs[i])
    ensures var r' := Feed(Start(r), inputs, clock);
      && r'.recording
      && |r'.events| == |inputs|
      && (forall i :: 0 <= i < |inputs| ==>
            r'.events[i] == Event(Shape(inputs[i]).0, Shape(inputs[i]).1, Some(Gap(clock, i))))
      && (forall i :: 0 <= i < |inputs| ==> WellShaped(r'.events[i]))
      && r'.lastTime == (if |inputs| == 0 then None else Some(clock[|clock| - 1]))
  {
    if |inputs| > 0 {
      var n := |inputs|;
      Session(r, inputs[..n - 1], clock[..n - 1]);
      SessionStep(Feed(Start(r), inputs[..n - 1], clock[..n - 1]), inputs, clock);
    }
  }

  /** The state after a session over `inputs` at readings `clock`. */
  ghost predicate Captured(r': Recorder, inputs: seq<Input>, clock: seq<real>)
    requires |clock| == |inputs|
    requires forall i :: 0 <= i < |inputs| ==> Recordable(inputs[i])
  {
    && r'.recording
    && |r'.events| == |inputs|
    && (forall i :: 0 <= i < |inputs| ==>
          r'.events[i] == Event(Shape(inputs[i]).0, Shape(inputs[i]).1, Some(Gap(clock, i))))
    && (forall i :: 0 <= i < |inputs| ==> WellShaped(r'.events[i]))
    && r'.lastTime == (if |inputs| == 0 then None else Some(clock[|clock| - 1]))
  }

  /** One more input extends a session by one event. */
  lemma SessionStep(prev: Recorder, inputs: seq<Input>, clock: seq<real>)
    requires |clock| == |inputs| > 0
    requires forall i :: 0 <= i < |inputs| ==> Recordable(inputs[i])
    requires Captured(prev, inputs[..|inputs| - 1], clock[..|clock| - 1])
    ensures Captured(Deliver(prev, inputs[|inputs| - 1], clock[|clock| - 1]), inputs, clock)
  {
    var n := |inputs|;
    assert forall i :: 0 <= i < n - 1 ==> Gap(clock[..n - 1], i) == Gap(clock, i);
    assert TimeDelta(prev, clock[n - 1]).0 == Gap(clock, n - 1);
    DeliverRecording(prev, inputs[n - 1], clock[n - 1]);
    ShapeWellShaped(inputs[n - 1], Gap(clock, n - 1));
  }

  /** A recording recorder captures a recordable input as one event of its shape. */
  lemma DeliverRecording(r: Recorder, input: Input, now: real)
    requires r.recording && Recordable(input)
    ensures Appended(r, Deliver(r, input, now), Shape(input).0, Shape(input).1, now)
  {
  }

  lemma ShapeWellShaped(input: Input, delay: real)
    requires Recordable(input)
    ensures WellShaped(Event(Shape(input).0, Shape(input).1, Some(delay)))
  {
  }
}
