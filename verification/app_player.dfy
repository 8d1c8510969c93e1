/**
 `MacroPlayer.play` of app.py as a pure trace function. The pynput controllers
 become the emitted `Action` trace, `time.sleep` becomes a `Sleep` action, and
 the stop event is the `stop` oracle of `Playback`.
 */
module AppPlayer {
  import opened Common
  import opened AppEvents
  import opened Playback

  /** What the pynput library contributes: the names it resolves (members of
      `keyboard.Key` and of `mouse.Button`), and whether its key controller
      raises when handed `None` for a key. */
  datatype Devices = Devices(keys: set<string>, buttons: set<string>, noneKeyRaises: bool)

  /** What the key controller is handed: a `keyboard.Key` member, or a character. */
  datatype KeyRef = Special(name: string) | Literal(ch: string)

  datatype Action =
    | Sleep(seconds: real)              // time.sleep
    | MoveTo(x: int, y: int)            // m_controller.position = pos
    | Press(button: string)             // m_controller.press
    | Release(button: string)           // m_controller.release
    | Scroll(dx: int, dy: int)          // m_controller.scroll
    | KeyDown(key: Option<KeyRef>)      // k_controller.press (None is passed through)
    | KeyUp(key: Option<KeyRef>)        // k_controller.release

  /** `getattr(keyboard.Key, name, None)`, falling back to the name itself when it is one character. */
  function ResolveKey(d: Devices, name: string): (k: Option<KeyRef>)
    ensures name in d.keys ==> k == Some(Special(name))
    ensures name !in d.keys && |name| == 1 ==> k == Some(Literal(name))
    ensures k.None? <==> name !in d.keys && |name| != 1
  {
    if name in d.keys then Some(Special(name))
    else if |name| == 1 then Some(Literal(name))
    else None
  }

  /** `ev.get('delay', 0)`. */
  function DelayOf(e: Event): real
  {
    e.delay.GetOr(0.0)
  }

  /** The event types whose branch moves the pointer to `'pos'` first. */
  predicate PointerKind(kind: string)
  {
    kind == "move" || kind == "click" || kind == "scroll"
  }

  /** Acting on one event once its delay was slept, by its type. Reading a field
      the dict lacks raises `KeyError`; an unknown button name raises
      `AttributeError` after the pointer was moved. A key name nothing resolves is
      passed on as `None`, which the controller either refuses (raising before
      it does anything) or acts on, as `d.noneKeyRaises` says. */
  function Act(d: Devices, e: Event): (st: Step<Action>)
    ensures forall i :: 0 <= i < |st.actions| ==> !st.actions[i].Sleep?
    // which events raise
    ensures st.raised <==>
      || (PointerKind(e.kind) && !e.fields.HasPos())
      || (e.kind == "click" && (!e.fields.ButtonFields? || e.fields.button !in d.buttons))
      || (e.kind == "scroll" && !e.fields.Wheel?)
      || (e.kind == "key" && !e.fields.KeyFields?)
      || (e.kind == "key" && e.fields.KeyFields? && ResolveKey(d, e.fields.name).None? && d.noneKeyRaises)
    // a raising event has done nothing but, for a pointer event, the move
    ensures st.raised ==>
      st.actions == if PointerKind(e.kind) && e.fields.HasPos() then [MoveTo(e.fields.x, e.fields.y)] else []
    // an event whose type no branch names does nothing
    ensures !PointerKind(e.kind) && e.kind != "key" ==> st == Step([], false)
    // pointer events first move the pointer to the recorded position
    ensures PointerKind(e.kind) && e.fields.HasPos() ==> |st.actions| > 0 && st.actions[0] == MoveTo(e.fields.x, e.fields.y)
    ensures e.kind == "move" && !st.raised ==> st.actions == [MoveTo(e.fields.x, e.fields.y)]
    ensures e.kind == "click" && !st.raised ==>
      st.actions == [MoveTo(e.fields.x, e.fields.y), if e.fields.pressed then Press(e.fields.button) else Release(e.fields.button)]
    ensures e.kind == "scroll" && !st.raised ==> st.actions == [MoveTo(e.fields.x, e.fields.y), Scroll(e.fields.dx, e.fields.dy)]
    ensures e.kind == "key" && !st.raised ==>
      var key := ResolveKey(d, e.fields.name);
      st.actions == [if e.fields.event == "press" then KeyDown(key) else KeyUp(key)]
    ensures |st.actions| <= 2
  {
    if e.kind == "move" then
      if e.fields.HasPos() then Step([MoveTo(e.fields.x, e.fields.y)], false)
      else Step([], true)
    else if e.kind == "click" then
      if !e.fields.HasPos() then Step([], true)
      else
        var moved := [MoveTo(e.fields.x, e.fields.y)];
        if !e.fields.ButtonFields? || e.fields.button !in d.buttons then Step(moved, true)
        else if e.fields.pressed then Step(moved + [Press(e.fields.button)], false)
        else Step(moved + [Release(e.fields.button)], false)
    else if e.kind == "scroll" then
      if !e.fields.HasPos() then Step([], true)
      else
        var moved := [MoveTo(e.fields.x, e.fields.y)];
        if e.fields.Wheel? then Step(moved + [Scroll(e.fields.dx, e.fields.dy)], false)
        else Step(moved, true)
    else if e.kind == "key" then
      if !e.fields.KeyFields? then Step([], true)
      else
        var key := ResolveKey(d, e.fields.name);
        if key.None? && d.noneKeyRaises then Step([], true)
        else if e.fields.event == "press" then Step([KeyDown(key)], false)
        else Step([KeyUp(key)], false)
    else Step([], false)
  }

  /** Processing one event: sleep for its delay, then act on its type.
      `time.sleep` raises `ValueError` for a negative delay, before anything is done. */
  function Dispatch(d: Devices, e: Event): (st: Step<Action>)
    ensures st.raised <==> DelayOf(e) < 0.0 || Act(d, e).raised
    ensures DelayOf(e) < 0.0 ==> st.actions == []
    ensures DelayOf(e) >= 0.0 ==> st.actions == [Sleep(DelayOf(e))] + Act(d, e).actions
  {
    var delay := DelayOf(e);
    if delay < 0.0 then Step([], true)
    else
      var act := Act(d, e);
      Step([Sleep(delay)] + act.actions, act.raised)
  }

  /** Handing one event to `Dispatch`. */
  function Handler(d: Devices): Event -> Step<Action>
  {
    (e: Event) => Dispatch(d, e)
  }

  /** Global step `k` handles `events[k % |events|]`. */
  function StepOf(d: Devices, events: seq<Event>): nat -> Step<Action>
  {
    Cyclic(Handler(d), events)
  }

  predicate SomeEventRaises(d: Devices, events: seq<Event>)
  {
    exists i :: 0 <= i < |events| && Dispatch(d, events[i]).raised
  }

  /** `play(repeat, stop_event)`: `None` when the call never returns.
      `repeat <= 0` loops until stopped; a positive `repeat` runs that many passes.
      Stop is only checked before an event, so an empty macro with `repeat <= 0`
      spins forever whatever the stop event says. */
  function Play(d: Devices, events: seq<Event>, repeat: int, stop: Option<nat>): (r: Option<Run<Action>>)
    ensures r.None? <==> repeat <= 0 && (|events| == 0 || (stop.None? && !SomeEventRaises(d, events)))
    ensures r.Some? && r.value.outcome == Completed ==> repeat > 0 && r.value.steps == repeat * |events|
    ensures r.Some? && r.value.outcome == Cancelled ==> StopSeen(stop, r.value.steps)
    ensures r.Some? && r.value.outcome == Raised ==> |events| > 0 && Dispatch(d, events[Cycle(r.value.steps, |events|)]).raised
  {
    if |events| == 0 then
      if repeat > 0 then Some(Run([], 0, Completed)) else None
    else if repeat > 0 then
      Some(RunFrom(StepOf(d, events), 0, Some(repeat * |events|), stop))
    else if stop.Some? then
      Some(RunFrom(StepOf(d, events), 0, None, stop))
    else if SomeEventRaises(d, events) then
      // the endless loop ends in its first pass, at the first event that raises
      NoEndlessRaisingPass(d, events);
      Some(RunFrom(StepOf(d, events), 0, Some(|events|), None))
    else None
  }

  /** With an event that raises, one pass never completes. */
  lemma NoEndlessRaisingPass(d: Devices, events: seq<Event>)
    requires |events| > 0 && SomeEventRaises(d, events)
    ensures RunFrom(StepOf(d, events), 0, Some(|events|), None).outcome == Raised
  {
    var i :| 0 <= i < |events| && Dispatch(d, events[i]).raised;
    assert Cycle(i, |events|) == i;
    assert StepOf(d, events)(i) == Dispatch(d, events[i]);
    var r := RunFrom(StepOf(d, events), 0, Some(|events|), None);
    if r.outcome != Raised {
      NothingEndsEarly(StepOf(d, events), 0, Some(|events|), None, i);
    }
  }

  /** The actions of one pass over the macro, event by event. */
  function PassActions(d: Devices, events: seq<Event>): seq<Action>
  {
    EachActions(Handler(d), events)
  }

  lemma StepsRepeat(d: Devices, events: seq<Event>, r: nat)
    ensures Steps(StepOf(d, events), 0, r * |events|) == Repeat(PassActions(d, events), r)
  {
    CyclicPasses(Handler(d), events, r);
    PassStartIsProduct(r, |events|);
  }

  /** No stop before the end and no event that raises: `play` performs `repeat`
      whole passes, each replaying the macro's events in list order. */
  lemma FullPlayback(d: Devices, events: seq<Event>, repeat: nat, stop: Option<nat>)
    requires repeat > 0
    requires !SomeEventRaises(d, events)
    requires stop.None? || stop.value >= repeat * |events|
    ensures Play(d, events, repeat, stop) == Some(Run(Repeat(PassActions(d, events), repeat), repeat * |events|, Completed))
  {
    if |events| == 0 {
      RepeatLength(PassActions(d, events), repeat);
    } else {
      var step := StepOf(d, events);
      forall j | 0 <= j < repeat * |events|
        ensures !StopSeen(stop, j) && !step(j).raised
      {
        var i := Cycle(j, |events|);
        assert step(j) == Dispatch(d, events[i]);
      }
      RunCompletes(step, 0, repeat * |events|, stop);
      StepsRepeat(d, events, repeat);
    }
  }

  /** A stop seen before global step `c`, with no step before it raising, ends
      playback there: the trace is exactly
      what the first `c` events produced, a prefix of the trace the run would have
      had without the stop, and nothing from step `c` on is emitted. Holds for the
      endless (`repeat <= 0`) loop too. */
  lemma StoppedPlayback(d: Devices, events: seq<Event>, repeat: int, c: nat)
    requires |events| > 0
    requires forall j :: 0 <= j < c ==> !Dispatch(d, events[Cycle(j, |events|)]).raised
    requires repeat > 0 ==> c < repeat * |events|
    ensures var full := Steps(StepOf(d, events), 0, if repeat > 0 then repeat * |events| else c);
      && Play(d, events, repeat, Some(c)) == Some(Run(Steps(StepOf(d, events), 0, c), c, Cancelled))
      && Steps(StepOf(d, events), 0, c) <= full
  {
    var step := StepOf(d, events);
    forall j | 0 <= j < c
      ensures !step(j).raised
    {
      assert step(j) == Dispatch(d, events[Cycle(j, |events|)]);
    }
    RunCancels(step, 0, if repeat > 0 then Some(repeat * |events|) else None, c);
    StepsSplit(step, 0, c, if repeat > 0 then repeat * |events| else c);
  }

  /** How long one action sleeps. */
  function SleepSeconds(a: Action): real
  {
    if a.Sleep? then a.seconds else 0.0
  }

  /** Total seconds slept by a list of actions. */
  function SleepTime(actions: seq<Action>): real
  {
    Slept(actions, SleepSeconds)
  }

  /** An event that does not raise sleeps exactly its delay, once. */
  lemma DispatchSleeps(d: Devices, e: Event)
    requires !Dispatch(d, e).raised
    ensures SleepTime(Dispatch(d, e).actions) == DelayOf(e)
  {
    var rest := Act(d, e).actions;
    SleptNothing(rest, SleepSeconds);
    assert SleepTime([Sleep(DelayOf(e))]) == Slept([], SleepSeconds) + DelayOf(e);
    SleptAppend([Sleep(DelayOf(e))], rest, SleepSeconds);
  }

  /** How long handling an event sleeps, whatever the time. */
  function SleepsFor(d: Devices): (Event, real) -> real
  {
    (e: Event, t: real) => SleepTime(Dispatch(d, e).actions)
  }

  /** The pass-relative time at which each event of one pass acts when the clock
      only advances while the player sleeps. */
  function IdealTimes(d: Devices, events: seq<Event>): (ts: seq<real>)
    ensures |ts| == |events|
  {
    Paced(events, 0.0, SleepsFor(d))
  }

  /** The sum of the delays of `events`. */
  function TotalDelay(events: seq<Event>): real
  {
    Slept(events, DelayOf)
  }

  /** Under that clock, event `i` acts once the delays of events `0..i` have
      passed: the relative delays accumulate. */
  lemma IdealTimesAccumulate(d: Devices, events: seq<Event>)
    requires !SomeEventRaises(d, events)
    ensures forall i :: 0 <= i < |events| ==> IdealTimes(d, events)[i] == TotalDelay(events[..i + 1])
  {
    forall j, t | 0 <= j < |events|
      ensures SleepsFor(d)(events[j], t) == DelayOf(events[j])
    {
      DispatchSleeps(d, events[j]);
    }
    forall i | 0 <= i < |events|
      ensures IdealTimes(d, events)[i] == TotalDelay(events[..i + 1])
    {
      PacedSum(events, 0.0, SleepsFor(d), DelayOf, i);
    }
  }
}
