/**
 `MacroPlayer` of player.py as a pure trace function. pyautogui and the
 `keyboard` module become the emitted `Action` trace, `time.sleep` a `Sleep`
 action, `stop()` (the `playing` flag turning false) the `stop` oracle of
 `Playback`, and `time.time()` the readings of a `Clock`.
 */
module PilotPlayer {
  import opened Common
  import opened PilotEvents
  import opened Playback

  datatype Action =
    | Sleep(seconds: real)      // time.sleep
    | Click(x: int, y: int)     // pyautogui.click
    | MoveTo(x: int, y: int)    // pyautogui.moveTo
    | KeyDown(key: string)      // keyboard.press; a failure is swallowed
    | KeyUp(key: string)        // keyboard.release; a failure is swallowed

  /** The clock readings a run takes: `passStart(p)` at the start of pass `p`
      and `beforeStep(k)` just before global step `k` computes its delay. */
  datatype Clock = Clock(passStart: nat -> real, beforeStep: nat -> real)

  /** The player object: its only state is the `playing` flag. */
  datatype Player = Player(playing: bool)

  /** How a run left the player: the run, and the flag afterwards. */
  datatype Session = Session(run: Run<Action>, player: Player)

  /** `s.replace("'", "")`. */
  function Unquote(s: string): (t: string)
    ensures forall i :: 0 <= i < |t| ==> t[i] != '\''
    ensures |t| <= |s|
    ensures (forall i :: 0 <= i < |s| ==> s[i] != '\'') ==> t == s
    ensures |s| == 1 ==> t == if s[0] == '\'' then [] else s
  {
    if |s| == 0 then []
    else if s[0] == '\'' then Unquote(s[1..])
    else [s[0]] + Unquote(s[1..])
  }

  /** Quotes are removed piece by piece: together with the one-character case,
      this pins `Unquote` down to keeping exactly the non-quote characters, in order. */
  lemma {:induction false} UnquoteConcat(a: string, b: string)
    ensures Unquote(a + b) == Unquote(a) + Unquote(b)
  {
    if |a| > 0 {
      assert (a + b)[0] == a[0];
      assert (a + b)[1..] == a[1..] + b;
      UnquoteConcat(a[1..], b);
    } else {
      assert a + b == b;
    }
  }

  /** The fields the type's branch reads are missing: `KeyError` escapes. Key
      branches read theirs inside `try: ... except: pass`, so they never raise. */
  predicate Raises(e: Event)
  {
    || (e.kind == "click" && !e.data.ClickData?)
    || (e.kind == "move" && !(e.data.PointData? || e.data.ClickData?))
  }

  /** The seconds to sleep before `e` when `elapsed` seconds of the pass are gone:
      the event's timestamp minus the elapsed time, slept only when positive. */
  function Wait(e: Event, elapsed: real): (w: seq<Action>)
    ensures e.time > elapsed ==> w == [Sleep(e.time - elapsed)]
    ensures e.time <= elapsed ==> w == []
  {
    var delay := e.time - elapsed;
    if delay > 0.0 then [Sleep(delay)] else []
  }

  /** Acting on one event once its wait is over, by its type. Only a pressed
      click clicks (at the recorded position); a release click does nothing. Key
      events hand the key text without its quote characters to `keyboard`, whose
      failures are swallowed. */
  function Act(e: Event): (st: Step<Action>)
    ensures st.raised <==> Raises(e)
    ensures forall i :: 0 <= i < |st.actions| ==> !st.actions[i].Sleep?
    ensures |st.actions| <= 1
    ensures e.kind == "click" && e.data.ClickData? ==>
      st.actions == (if e.data.pressed then [Click(e.data.x, e.data.y)] else [])
    ensures e.kind == "move" && (e.data.PointData? || e.data.ClickData?) ==> st.actions == [MoveTo(e.data.x, e.data.y)]
    ensures e.kind == "key_press" && e.data.KeyData? ==> st.actions == [KeyDown(Unquote(e.data.key))]
    ensures e.kind == "key_release" && e.data.KeyData? ==> st.actions == [KeyUp(Unquote(e.data.key))]
    ensures (e.kind == "key_press" || e.kind == "key_release") && !e.data.KeyData? ==> st == Step([], false)
    ensures e.kind !in {"click", "move", "key_press", "key_release"} ==> st == Step([], false)
    // a raising event fails on its first field lookup, before doing anything
    ensures st.raised ==> st.actions == []
  {
    if e.kind == "click" then
      if !e.data.ClickData? then Step([], true)
      else if e.data.pressed then Step([Click(e.data.x, e.data.y)], false)
      else Step([], false)
    else if e.kind == "move" then
      if e.data.PointData? || e.data.ClickData? then Step([MoveTo(e.data.x, e.data.y)], false)
      else Step([], true)
    else if e.kind == "key_press" then
      if e.data.KeyData? then Step([KeyDown(Unquote(e.data.key))], false)
      else Step([], false)
    else if e.kind == "key_release" then
      if e.data.KeyData? then Step([KeyUp(Unquote(e.data.key))], false)
      else Step([], false)
    else Step([], false)
  }

  /** Processing one event `elapsed` seconds into its pass: wait for its
      timestamp, then act on it. */
  function Dispatch(e: Event, elapsed: real): (st: Step<Action>)
    ensures st.raised <==> Raises(e)
    ensures st.actions == Wait(e, elapsed) + Act(e).actions
  {
    var act := Act(e);
    Step(Wait(e, elapsed) + act.actions, act.raised)
  }

  /** Handling an event in pass `q` at global step `k`: timed against the
      clock reading taken when pass `q` began. */
  function Handler(clock: Clock): (Event, nat, nat) -> Step<Action>
  {
    (e: Event, q: nat, k: nat) => Dispatch(e, clock.beforeStep(k) - clock.passStart(q))
  }

  /** Global step `k` handles `events[k % n]`, timed against the start of its pass. */
  function StepOf(events: seq<Event>, clock: Clock): nat -> Step<Action>
  {
    Timed(Handler(clock), events)
  }

  /** A step raises exactly when the event it handles does. */
  lemma StepRaises(events: seq<Event>, clock: Clock)
    requires |events| > 0
    ensures forall k: nat :: StepOf(events, clock)(k).raised <==> Raises(events[Cycle(k, |events|)])
  {
    forall k: nat
      ensures StepOf(events, clock)(k).raised <==> Raises(events[Cycle(k, |events|)])
    {
      assert StepOf(events, clock)(k) == Dispatch(events[Cycle(k, |events|)], clock.beforeStep(k) - clock.passStart(PassOf(k, |events|)));
    }
  }

  /** Step `j` of pass `q`, global step `k`, handles `events[j]`, timed against
      the clock reading taken when pass `q` began. */
  lemma StepInPass(events: seq<Event>, clock: Clock, q: nat, j: nat, k: nat)
    requires j < |events| && k == PassStart(q, |events|) + j
    ensures StepOf(events, clock)(k) == Dispatch(events[j], clock.beforeStep(k) - clock.passStart(q))
  {
    CycleOf(q, |events|, j);
    StepAtPosition(events, clock, k, q, j);
  }

  /** A step at position `j` of pass `q` handles `events[j]`, timed against the start of pass `q`. */
  lemma StepAtPosition(events: seq<Event>, clock: Clock, k: nat, q: nat, j: nat)
    requires j < |events| && Cycle(k, |events|) == j && PassOf(k, |events|) == q
    ensures StepOf(events, clock)(k) == Dispatch(events[j], clock.beforeStep(k) - clock.passStart(q))
  {
  }

  /** The actions of passes `0 .. r-1`, one after the other, each handling every
      event in list order, timed against the start of its pass. */
  function Passes(events: seq<Event>, clock: Clock, r: nat): seq<Action>
  {
    TimedPasses(Handler(clock), events, r)
  }

  predicate SomeEventRaises(events: seq<Event>)
  {
    exists i :: 0 <= i < |events| && Raises(events[i])
  }

  /** `stop`: clears the flag the loops test. */
  function Stop(p: Player): (p': Player)
    ensures !p'.playing
  {
    Player(false)
  }

  /** The run's end state: `playing` is reset on the normal way out, but an
      exception skips that line and leaves the flag set. */
  function Finish(run: Run<Action>): Session
  {
    Session(run, Player(run.outcome == Raised))
  }

  /** `play(events, repeat_count)`: `None` when the call never returns.
      `repeat_count == 0` loops until stopped, a positive count runs that many
      passes and a negative one none at all. With an empty list the outer loop
      still tests the flag, so a stop request ends even an endless run. */
  function Play(events: seq<Event>, repeatCount: int, stop: Option<nat>, clock: Clock): (r: Option<Session>)
    ensures r.None? <==> repeatCount == 0 && stop.None? && !SomeEventRaises(events)
    ensures r.Some? ==> (r.value.player.playing <==> r.value.run.outcome == Raised)
    ensures repeatCount < 0 ==> r == Some(Session(Run([], 0, Completed), Player(false)))
    ensures r.Some? && r.value.run.outcome == Completed ==>
      repeatCount != 0 && r.value.run.steps == (if repeatCount > 0 then repeatCount * |events| else 0)
    ensures r.Some? && r.value.run.outcome == Cancelled ==> stop.Some? && (|events| > 0 ==> StopSeen(stop, r.value.run.steps))
    ensures r.Some? && r.value.run.outcome == Raised ==>
      |events| > 0 && Raises(events[Cycle(r.value.run.steps, |events|)])
  {
    var n := |events|;
    if repeatCount < 0 then Some(Finish(Run([], 0, Completed)))
    else if n == 0 then
      if repeatCount > 0 then Some(Finish(Run([], 0, Completed)))
      else if stop.Some? then Some(Finish(Run([], 0, Cancelled)))
      else None
    else
      StepRaises(events, clock);
      if repeatCount > 0 then
        Some(Finish(RunFrom(StepOf(events, clock), 0, Some(repeatCount * n), stop)))
      else if stop.Some? then
        Some(Finish(RunFrom(StepOf(events, clock), 0, None, stop)))
      else if SomeEventRaises(events) then
        NoEndlessRaisingPass(events, clock);
        Some(Finish(RunFrom(StepOf(events, clock), 0, Some(n), None)))
      else None
  }

  /** With an event that raises, one pass never completes. */
  lemma NoEndlessRaisingPass(events: seq<Event>, clock: Clock)
    requires |events| > 0 && SomeEventRaises(events)
    ensures RunFrom(StepOf(events, clock), 0, Some(|events|), None).outcome == Raised
  {
    var i :| 0 <= i < |events| && Raises(events[i]);
    assert Cycle(i, |events|) == i;
    assert StepOf(events, clock)(i) == Dispatch(events[i], clock.beforeStep(i) - clock.passStart(PassOf(i, |events|)));
    var r := RunFrom(StepOf(events, clock), 0, Some(|events|), None);
    if r.outcome != Raised {
      NothingEndsEarly(StepOf(events, clock), 0, Some(|events|), None, i);
    }
  }

  /** No stop before the end and no event that raises: `play` performs
      `repeat_count` passes one after the other, each handling every event in list
      order timed against the start of its pass, and resets `playing`. */
  lemma FullPlayback(events: seq<Event>, repeatCount: nat, stop: Option<nat>, clock: Clock)
    requires repeatCount > 0 && |events| > 0
    requires !SomeEventRaises(events)
    requires stop.None? || stop.value >= repeatCount * |events|
    ensures Play(events, repeatCount, stop, clock) ==
      Some(Session(Run(Passes(events, clock, repeatCount), repeatCount * |events|, Completed), Player(false)))
  {
    var step := StepOf(events, clock);
    TimedByPass(Handler(clock), events, repeatCount);
    PassStartIsProduct(repeatCount, |events|);
    StepRaises(events, clock);
    RunCompletes(step, 0, repeatCount * |events|, stop);
  }

  /** A stop seen before global step `c`, with no step before it raising, leaves
      exactly the first `c` steps' actions, a prefix of what the unstopped run
      would emit, and resets `playing`. */
  lemma StoppedPlayback(events: seq<Event>, repeatCount: int, c: nat, clock: Clock)
    requires |events| > 0 && repeatCount >= 0
    requires forall j :: 0 <= j < c ==> !Raises(events[Cycle(j, |events|)])
    requires repeatCount > 0 ==> c < repeatCount * |events|
    ensures var full := Steps(StepOf(events, clock), 0, if repeatCount > 0 then repeatCount * |events| else c);
      && Play(events, repeatCount, Some(c), clock) == Some(Session(Run(Steps(StepOf(events, clock), 0, c), c, Cancelled), Player(false)))
      && Steps(StepOf(events, clock), 0, c) <= full
  {
    var step := StepOf(events, clock);
    StepRaises(events, clock);
    RunCancels(step, 0, if repeatCount > 0 then Some(repeatCount * |events|) else None, c);
    StepsSplit(step, 0, c, if repeatCount > 0 then repeatCount * |events| else c);
  }

  /** How long one action sleeps. */
  function SleepSeconds(a: Action): real
  {
    if a.Sleep? then a.seconds else 0.0
  }

  /** Total seconds slept by a list of actions. */
  function SleepTime(actions: seq<Action>): real
  {
    Slept(actions, SleepSeconds)
  }

  /** An event makes the pass wait until its timestamp, and no longer. */
  lemma DispatchSleeps(e: Event, elapsed: real)
    ensures SleepTime(Dispatch(e, elapsed).actions) == (if e.time > elapsed then e.time - elapsed else 0.0)
  {
    var rest := Act(e).actions;
    WaitSleeps(e, elapsed);
    SleptNothing(rest, SleepSeconds);
    SleptAppend(Wait(e, elapsed), rest, SleepSeconds);
  }

  lemma WaitSleeps(e: Event, elapsed: real)
    ensures SleepTime(Wait(e, elapsed)) == (if e.time > elapsed then e.time - elapsed else 0.0)
  {
    assert Slept([], SleepSeconds) == 0.0;
    if e.time > elapsed {
      assert SleepTime(Wait(e, elapsed)) == Slept([], SleepSeconds) + (e.time - elapsed);
    }
  }

  /** How long handling an event sleeps when `elapsed` seconds of the pass are gone. */
  function SleepsAt(e: Event, elapsed: real): real
  {
    SleepTime(Dispatch(e, elapsed).actions)
  }

  /** The pass-relative time at which each event of one pass is dispatched when
      the clock only advances while the player sleeps: each event is timed
      against the dispatch time of the one before (`start` for the first). */
  function IdealTimes(events: seq<Event>, start: real): (ts: seq<real>)
    ensures |ts| == |events|
  {
    Paced(events, start, SleepsAt)
  }

  /** An event's timestamp. */
  function TimeOf(e: Event): real
  {
    e.time
  }

  /** The latest of `start` and the timestamps in `events`. */
  function Latest(events: seq<Event>, start: real): real
  {
    LatestOf(events, start, TimeOf)
  }

  /** Under that clock, event `i` fires at the latest timestamp among events
      `0..i`: on time when it is not behind, and with no wait at all when an
      earlier event already ran later than its timestamp. */
  lemma IdealTimesAreLatest(events: seq<Event>, start: real)
    ensures forall i :: 0 <= i < |events| ==> IdealTimes(events, start)[i] == Latest(events[..i + 1], start)
  {
    forall j, t | 0 <= j < |events|
      ensures SleepsAt(events[j], t) == (if TimeOf(events[j]) > t then TimeOf(events[j]) - t else 0.0)
    {
      DispatchSleeps(events[j], t);
    }
    forall i | 0 <= i < |events|
      ensures IdealTimes(events, start)[i] == Latest(events[..i + 1], start)
    {
      PacedLatest(events, start, SleepsAt, TimeOf, i);
    }
  }

  /** Timestamps that start at or after `start` and never decrease are each met
      exactly: event `i` fires `events[i].time` seconds into the pass. */
  lemma SortedEventsOnTime(events: seq<Event>, start: real)
    requires forall i, j :: 0 <= i <= j < |events| ==> start <= events[i].time <= events[j].time
    ensures forall i :: 0 <= i < |events| ==> IdealTimes(events, start)[i] == events[i].time
  {
    IdealTimesAreLatest(events, start);
    forall i | 0 <= i < |events|
      ensures Latest(events[..i + 1], start) == events[i].time
    {
      LatestOfSorted(events[..i + 1], start, TimeOf);
    }
  }
}
