/**
 `MacroRecorder` of recorder.py as a record-valued state machine. The pynput
 listeners become plain calls of the `on_*` callbacks, each given the clock
 reading of that moment; `str(button)` and `str(key)` are given as text.
 Unlike app.py, the callbacks do not look at `recording`.
 */
module PilotRecorder {
  import opened Common
  import opened PilotEvents

  datatype Recorder = Recorder(events: seq<Event>, startTime: Option<real>, recording: bool)

  /** One input notification. Scrolling is not listened to in this prototype. */
  datatype Input =
    | ClickInput(x: int, y: int, button: string, pressed: bool)
    | MoveInput(x: int, y: int)
    | PressInput(key: string)
    | ReleaseInput(key: string)

  function Init(): (r: Recorder)
    ensures r.events == [] && r.startTime.None? && !r.recording
  {
    Recorder([], None, false)
  }

  /** `start` at clock reading `now`: an empty list and a new time origin. */
  function Start(r: Recorder, now: real): (r': Recorder)
    ensures r'.events == [] && r'.startTime == Some(now) && r'.recording
  {
    Recorder([], Some(now), true)
  }

  /** `stop`: only the flag changes; the events and the time origin stay. */
  function Stop(r: Recorder): (r': Recorder)
    ensures r'.events == r.events && r'.startTime == r.startTime && !r'.recording
  {
    r.(recording := false)
  }

  /** `record_event` at clock reading `now`: appends one record stamped with the
      seconds since `start`. Before the first `start` the origin is `None` and the
      subtraction raises `TypeError`, modelled as a `None` result. */
  function RecordEvent(r: Recorder, kind: string, data: Data, now: real): (res: Option<Recorder>)
    ensures res.None? <==> r.startTime.None?
    ensures res.Some? ==> res.value.events == r.events + [Event(kind, now - r.startTime.value, data)]
    ensures res.Some? ==> res.value.startTime == r.startTime && res.value.recording == r.recording
  {
    match r.startTime
    case None => None
    case Some(t0) => Some(r.(events := r.events + [Event(kind, now - t0, data)]))
  }

  /** The record type and data the callback for `input` passes to `record_event`. */
  function Shape(input: Input): (res: (string, Data))
    ensures input.ClickInput? ==> res == ("click", ClickData(input.x, input.y, input.button, input.pressed))
    ensures input.MoveInput? ==> res == ("move", PointData(input.x, input.y))
    ensures input.PressInput? ==> res == ("key_press", KeyData(input.key))
    ensures input.ReleaseInput? ==> res == ("key_release", KeyData(input.key))
  {
    match input
    case ClickInput(x, y, b, p) => ("click", ClickData(x, y, b, p))
    case MoveInput(x, y) => ("move", PointData(x, y))
    case PressInput(k) => ("key_press", KeyData(k))
    case ReleaseInput(k) => ("key_release", KeyData(k))
  }

  /** `on_click`, `on_move`, `on_press`, `on_release`. */
  function Deliver(r: Recorder, input: Input, now: real): Option<Recorder>
  {
    RecordEvent(r, Shape(input).0, Shape(input).1, now)
  }

  /** Delivers `inputs` in order, `inputs[i]` at clock reading `clock[i]`;
      `None` when a callback raised. */
  function Feed(r: Recorder, inputs: seq<Input>, clock: seq<real>): Option<Recorder>
    requires |clock| == |inputs|
  {
    if |inputs| == 0 then Some(r)
    else match Feed(r, inputs[..|inputs| - 1], clock[..|clock| - 1])
      case None => None
      case Some(r') => Deliver(r', inputs[|inputs| - 1], clock[|clock| - 1])
  }

  /** Every callback appends whether or not `recording` is set: a stopped recorder
      still grows by one record per input, with the same stamps as a running one. */
  lemma {:induction false} NotGated(r: Recorder, b: bool, inputs: seq<Input>, clock: seq<real>)
    requires |clock| == |inputs|
    requires r.startTime.Some?
    ensures Feed(r, inputs, clock).Some?
    ensures Feed(r.(recording := b), inputs, clock) == Some(Feed(r, inputs, clock).value.(recording := b))
    ensures Feed(r, inputs, clock).value.recording == r.recording
    ensures |Feed(r, inputs, clock).value.events| == |r.events| + |inputs|
  {
    if |inputs| > 0 {
      NotGated(r, b, inputs[..|inputs| - 1], clock[..|clock| - 1]);
    }
  }

  /** A session: after `start` at reading `t0`, each input becomes exactly one
      record, in order, of its callback's type and data, stamped `clock[i] - t0`. */
  lemma {:induction false} Session(r: Recorder, t0: real, inputs: seq<Input>, clock: seq<real>)
    requires |clock| == |inputs|
    ensures Feed(Start(r, t0), inputs, clock).Some?
    ensures var r' := Feed(Start(r, t0), inputs, clock).value;
      && r'.startTime == Some(t0)
      && |r'.events| == |inputs|
      && forall i :: 0 <= i < |inputs| ==>
           r'.events[i] == Event(Shape(inputs[i]).0, clock[i] - t0, Shape(inputs[i]).1)
  {
    if |inputs| > 0 {
      var n := |inputs|;
      Session(r, t0, inputs[..n - 1], clock[..n - 1]);
    }
  }

  /** With a clock that never runs backwards, the stamps of a session are
      non-negative and non-decreasing. */
  lemma StampsOrdered(r: Recorder, t0: real, inputs: seq<Input>, clock: seq<real>)
    requires |clock| == |inputs|
    requires forall i :: 0 <= i < |clock| ==> t0 <= clock[i]
    requires forall i, j :: 0 <= i <= j < |clock| ==> clock[i] <= clock[j]
    ensures Feed(Start(r, t0), inputs, clock).Some?
    ensures var evs := Feed(Start(r, t0), inputs, clock).value.events;
      forall i, j :: 0 <= i <= j < |evs| ==> 0.0 <= evs[i].time <= evs[j].time
  {
    Session(r, t0, inputs, clock);
  }
}
