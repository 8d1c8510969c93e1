/**
 The non-GUI part of `MacroApp` in app.py: the state behind the Rec and Play
 buttons. Whether the playback thread is still alive is an input; what
 `toggle_play` hands to that thread is returned as a `Command`.
 */
module AppControl {
  import opened Common
  import opened AppEvents
  import AppRecorder
  import PyInt

  datatype App = App(
    recorder: AppRecorder.Recorder,
    macro: seq<Event>,
    alwaysOnTop: int,          // the checkbox's IntVar
    playbackTimes: string,     // the entry's StringVar
    recordHotkey: string,
    playHotkey: string)

  /** What pressing Play leads to. */
  datatype Command =
    | StopPlayback                         // set the stop event and join the thread
    | NoMacro                              // "No macro recorded"
    | Launch(events: seq<Event>, repeat: int)  // clear the stop event, play on a new thread

  /** The state `__init__` sets up. */
  function Init(): (a: App)
    ensures a.macro == [] && !a.recorder.recording && a.recorder.events == []
    ensures a.alwaysOnTop == 0 && a.playbackTimes == "1"
    ensures a.recordHotkey == "f10" && a.playHotkey == "f6"
  {
    App(AppRecorder.Init(), [], 0, "1", "f10", "f6")
  }

  /** `toggle_record`: stopping copies the captured events into the macro;
      starting clears only the recorder's own list, so the last macro survives
      a new recording until that recording is stopped. */
  function ToggleRecord(a: App): (a': App)
    ensures a.recorder.recording ==> !a'.recorder.recording && a'.macro == a.recorder.events
    ensures !a.recorder.recording ==> a'.recorder.recording && a'.recorder.events == [] && a'.macro == a.macro
    ensures a'.playbackTimes == a.playbackTimes && a'.alwaysOnTop == a.alwaysOnTop
  {
    if a.recorder.recording then
      var r := AppRecorder.Stop(a.recorder);
      a.(recorder := r, macro := r.events)
    else
      a.(recorder := AppRecorder.Start(a.recorder))
  }

  /** The repeat count `toggle_play` reads: `int()` of the entry, or 1 when that raises. */
  function RepeatCount(text: string): (n: int)
    ensures PyInt.ParseInt(text).Some? ==> n == PyInt.ParseInt(text).value
    ensures PyInt.ParseInt(text).None? ==> n == 1
  {
    PyInt.ParseInt(text).GetOr(1)
  }

  /** `toggle_play`, given whether the playback thread is alive. A running
      playback is stopped; otherwise an empty macro is refused, and a non-empty
      one is launched with the parsed repeat count. The app state is not changed. */
  function TogglePlay(a: App, threadAlive: bool): (c: Command)
    ensures threadAlive ==> c == StopPlayback
    ensures !threadAlive && a.macro == [] ==> c == NoMacro
    ensures c.Launch? ==> !threadAlive && |c.events| > 0 && c.events == a.macro
    ensures c.Launch? ==> c.repeat == RepeatCount(a.playbackTimes)
    ensures !threadAlive && a.macro != [] ==> c.Launch?
  {
    if threadAlive then StopPlayback
    else if a.macro == [] then NoMacro
    else Launch(a.macro, RepeatCount(a.playbackTimes))
  }

  /** Rec, any inputs, Rec again: the macro is exactly the session's capture, and
      a recording with no input in between leaves an empty macro that Play refuses. */
  lemma RecordThenPlay(a: App, inputs: seq<AppRecorder.Input>, clock: seq<real>)
    requires !a.recorder.recording
    requires |clock| == |inputs|
    requires forall i :: 0 <= i < |inputs| ==> AppRecorder.Recordable(inputs[i])
    ensures var started := ToggleRecord(a);
      var fed := started.(recorder := AppRecorder.Feed(started.recorder, inputs, clock));
      var stopped := ToggleRecord(fed);
      && |stopped.macro| == |inputs|
      && (forall i :: 0 <= i < |inputs| ==>
            stopped.macro[i] == Event(AppRecorder.Shape(inputs[i]).0, AppRecorder.Shape(inputs[i]).1,
                                      Some(AppRecorder.Gap(clock, i))))
      && !stopped.recorder.recording
      && (TogglePlay(stopped, false) == NoMacro <==> |inputs| == 0)
  {
    AppRecorder.Session(a.recorder, inputs, clock);
  }

  /** The default entry text plays the macro once. */
  lemma DefaultRepeatIsOnce()
    ensures RepeatCount(Init().playbackTimes) == 1
  {
    PyInt.ParseShow(1);
    assert PyInt.Show(1) == "1";
  }
}
