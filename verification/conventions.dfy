/**
 How the two prototypes differ when the same thing is recorded and replayed:
 the meaning of the repeat count, and relative delays (app.py) against
 timestamps since the start of recording (recorder.py / player.py).
 */
module Conventions {
  import opened Common
  import opened Playback
  import AppEvents
  import AppRecorder
  import AppPlayer
  import PilotEvents
  import PilotRecorder
  import PilotPlayer

  /** The repeat count, for a non-empty macro in which nothing raises and no stop
      is ever requested: a negative count loops forever in app.py but plays
      nothing in player.py; 0 loops forever in both; a positive count plays that
      many passes in both. */
  lemma RepeatCounts(d: AppPlayer.Devices, appMacro: seq<AppEvents.Event>,
                     pilotMacro: seq<PilotEvents.Event>, clock: PilotPlayer.Clock, repeat: int)
    requires |appMacro| > 0 && !AppPlayer.SomeEventRaises(d, appMacro)
    requires |pilotMacro| > 0 && !PilotPlayer.SomeEventRaises(pilotMacro)
    ensures repeat < 0 ==> AppPlayer.Play(d, appMacro, repeat, None).None?
    ensures repeat < 0 ==> PilotPlayer.Play(pilotMacro, repeat, None, clock).value.run == Run([], 0, Completed)
    ensures repeat == 0 ==> AppPlayer.Play(d, appMacro, repeat, None).None?
    ensures repeat == 0 ==> PilotPlayer.Play(pilotMacro, repeat, None, clock).None?
    ensures repeat > 0 ==> AppPlayer.Play(d, appMacro, repeat, None).value.steps == repeat * |appMacro|
    ensures repeat > 0 ==> PilotPlayer.Play(pilotMacro, repeat, None, clock).value.run.steps == repeat * |pilotMacro|
  {
    if repeat > 0 {
      AppPlayer.FullPlayback(d, appMacro, repeat, None);
      PilotPlayer.FullPlayback(pilotMacro, repeat, None, clock);
    }
  }

  /** The clock never runs backwards over the session. */
  ghost predicate Monotone(clock: seq<real>)
  {
    forall i, j :: 0 <= i <= j < |clock| ==> clock[i] <= clock[j]
  }

  /** The inputs app.py records, with every clicked button known to pynput and
      every key name resolvable, unless pynput accepts `None` for a key. */
  ghost predicate AppRecordable(d: AppPlayer.Devices, inputs: seq<AppRecorder.Input>)
  {
    forall i :: 0 <= i < |inputs| ==>
      && AppRecorder.Recordable(inputs[i])
      && (inputs[i].ClickInput? ==> inputs[i].button in d.buttons)
      && ((inputs[i].PressInput? || inputs[i].ReleaseInput?) && d.noneKeyRaises ==>
            AppPlayer.ResolveKey(d, AppRecorder.KeyName(inputs[i].key).value).Some?)
  }

  lemma {:induction false} GapsTelescope(macro: seq<AppEvents.Event>, clock: seq<real>, i: nat)
    requires |macro| == |clock| && i < |clock|
    requires forall j :: 0 <= j < |macro| ==> macro[j].delay == Some(AppRecorder.Gap(clock, j))
    ensures AppPlayer.TotalDelay(macro[..i + 1]) == clock[i] - clock[0]
  {
    assert macro[..i + 1][..i] == macro[..i];
    assert AppPlayer.TotalDelay(macro[..i + 1]) == AppPlayer.TotalDelay(macro[..i]) + AppPlayer.DelayOf(macro[i]);
    if i > 0 {
      GapsTelescope(macro, clock, i - 1);
    }
  }

  /** The events a session over `inputs` at readings `clock` captures. */
  ghost predicate AppCaptured(macro: seq<AppEvents.Event>, inputs: seq<AppRecorder.Input>, clock: seq<real>)
    requires |clock| == |inputs|
    requires forall i :: 0 <= i < |inputs| ==> AppRecorder.Recordable(inputs[i])
  {
    && |macro| == |inputs|
    && forall i :: 0 <= i < |inputs| ==>
         macro[i] == AppEvents.Event(AppRecorder.Shape(inputs[i]).0, AppRecorder.Shape(inputs[i]).1,
                                     Some(AppRecorder.Gap(clock, i)))
  }

  /** Captured events carry non-negative delays and the fields their players
      read, so none of them raises. */
  lemma AppCapturedNeverRaises(d: AppPlayer.Devices, macro: seq<AppEvents.Event>,
                               inputs: seq<AppRecorder.Input>, clock: seq<real>)
    requires |clock| == |inputs|
    requires AppRecordable(d, inputs)
    requires Monotone(clock)
    requires AppCaptured(macro, inputs, clock)
    ensures !AppPlayer.SomeEventRaises(d, macro)
  {
    forall i | 0 <= i < |macro|
      ensures !AppPlayer.Dispatch(d, macro[i]).raised
    {
      assert AppRecorder.Gap(clock, i) >= 0.0 by {
        if i > 0 {
          assert clock[i - 1] <= clock[i];
        }
      }
      match inputs[i]
      case MoveInput(_, _) =>
      case ClickInput(_, _, _, _) =>
      case ScrollInput(_, _, _, _) =>
      case PressInput(_) =>
      case ReleaseInput(_) =>
    }
  }

  /** With the gaps as delays, event `i` acts `clock[i] - clock[0]` into a pass. */
  lemma AppCapturedTimes(d: AppPlayer.Devices, macro: seq<AppEvents.Event>, clock: seq<real>)
    requires |macro| == |clock|
    requires forall j :: 0 <= j < |macro| ==> macro[j].delay == Some(AppRecorder.Gap(clock, j))
    requires !AppPlayer.SomeEventRaises(d, macro)
    ensures forall i :: 0 <= i < |macro| ==> AppPlayer.IdealTimes(d, macro)[i] == clock[i] - clock[0]
  {
    AppPlayer.IdealTimesAccumulate(d, macro);
    forall i | 0 <= i < |macro|
      ensures AppPlayer.TotalDelay(macro[..i + 1]) == clock[i] - clock[0]
    {
      GapsTelescope(macro, clock, i);
    }
  }

  /** A macro app.py recorded with a clock that never runs backwards replays
      without raising, and, when only sleeping takes time, event `i` acts
      `clock[i] - clock[0]` seconds into each pass: the spacing between inputs is
      reproduced, the time from `start` to the first input is not. */
  lemma AppRecordedReplay(d: AppPlayer.Devices, a: AppRecorder.Recorder,
                          inputs: seq<AppRecorder.Input>, clock: seq<real>)
    requires |clock| == |inputs|
    requires AppRecordable(d, inputs)
    requires Monotone(clock)
    ensures var macro := AppRecorder.Feed(AppRecorder.Start(a), inputs, clock).events;
      && |macro| == |inputs|
      && !AppPlayer.SomeEventRaises(d, macro)
      && forall i :: 0 <= i < |inputs| ==> AppPlayer.IdealTimes(d, macro)[i] == clock[i] - clock[0]
  {
    AppRecorder.Session(a, inputs, clock);
    var macro := AppRecorder.Feed(AppRecorder.Start(a), inputs, clock).events;
    AppCapturedNeverRaises(d, macro, inputs, clock);
    AppCapturedTimes(d, macro, clock);
  }

  /** A macro recorder.py recorded from `start` at reading `t0`, with a clock that
      never runs backwards, replays without raising, and, when only sleeping takes
      time, event `i` acts `clock[i] - t0` seconds into each pass: the time from
      `start` to the first input is reproduced too. */
  lemma PilotRecordedReplay(p: PilotRecorder.Recorder, t0: real,
                            inputs: seq<PilotRecorder.Input>, clock: seq<real>)
    requires |clock| == |inputs|
    requires forall i :: 0 <= i < |clock| ==> t0 <= clock[i]
    requires Monotone(clock)
    ensures PilotRecorder.Feed(PilotRecorder.Start(p, t0), inputs, clock).Some?
    ensures var macro := PilotRecorder.Feed(PilotRecorder.Start(p, t0), inputs, clock).value.events;
      && |macro| == |inputs|
      && !PilotPlayer.SomeEventRaises(macro)
      && forall i :: 0 <= i < |inputs| ==> PilotPlayer.IdealTimes(macro, 0.0)[i] == clock[i] - t0
  {
    PilotRecorder.Session(p, t0, inputs, clock);
    PilotRecorder.StampsOrdered(p, t0, inputs, clock);
    var macro := PilotRecorder.Feed(PilotRecorder.Start(p, t0), inputs, clock).value.events;
    forall i | 0 <= i < |macro|
      ensures !PilotPlayer.Raises(macro[i])
    {
      match inputs[i]
      case ClickInput(_, _, _, _) =>
      case MoveInput(_, _) =>
      case PressInput(_) =>
      case ReleaseInput(_) =>
    }
    PilotPlayer.SortedEventsOnTime(macro, 0.0);
  }

  /** The same inputs at the same clock readings, recorded and replayed by each
      prototype (app.py having started recording no later than recorder.py):
      player.py acts on every event later than app.py by exactly the wait between
      `start` and the first input, which app.py's first delay of 0 drops. */
  lemma TimingConventions(d: AppPlayer.Devices, a: AppRecorder.Recorder, appInputs: seq<AppRecorder.Input>,
                          p: PilotRecorder.Recorder, t0: real, pilotInputs: seq<PilotRecorder.Input>,
                          clock: seq<real>)
    requires |appInputs| == |pilotInputs| == |clock|
    requires AppRecordable(d, appInputs)
    requires forall i :: 0 <= i < |clock| ==> t0 <= clock[i]
    requires Monotone(clock)
    ensures PilotRecorder.Feed(PilotRecorder.Start(p, t0), pilotInputs, clock).Some?
    ensures var appMacro := AppRecorder.Feed(AppRecorder.Start(a), appInputs, clock).events;
      var pilotMacro := PilotRecorder.Feed(PilotRecorder.Start(p, t0), pilotInputs, clock).value.events;
      && |appMacro| == |pilotMacro| == |clock|
      && forall i :: 0 <= i < |clock| ==>
        PilotPlayer.IdealTimes(pilotMacro, 0.0)[i] == AppPlayer.IdealTimes(d, appMacro)[i] + (clock[0] - t0)
  {
    AppRecordedReplay(d, a, appInputs, clock);
    PilotRecordedReplay(p, t0, pilotInputs, clock);
  }
}
