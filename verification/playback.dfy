/**
 The replay loop shared by both players, with the pass structure flattened.

 Both prototypes run `for pass: for event in events: check stop; sleep; dispatch`.
 Numbering the events the loop reaches as global steps `k = pass * |events| + index`,
 step `k` handles `events[k % |events|]`, and a run is: perform steps `0, 1, ...`
 until the step limit is reached (`repeat * |events|`, or none for an endless
 loop), the stop request is seen, or a step raises an exception.
 */
module Playback {
  import opened Common

  /** What processing one event did: the injection calls it made, in order, and
      whether it then raised an exception that ends the whole run. */
  datatype Step<A> = Step(actions: seq<A>, raised: bool)

  datatype Outcome =
    | Completed   // every pass ran to the end
    | Cancelled   // the stop request was seen before an event
    | Raised      // an exception escaped while processing an event

  /** The emitted action trace, the number of events fully processed, and how the run ended. */
  datatype Run<A> = Run(actions: seq<A>, steps: nat, outcome: Outcome)

  /** The stop request as the loop sees it. `stop == Some(c)`: the check made
      before global step `c` is the first to find it set; it stays set from then on
      (a `threading.Event` is never cleared during a run, nor is the `playing` flag
      set again). `None`: no stop request is ever seen. */
  predicate StopSeen(stop: Option<nat>, k: nat)
  {
    stop.Some? && stop.value <= k
  }

  /** The actions of the uninterrupted steps `lo .. hi-1`. */
  function Steps<A>(step: nat -> Step<A>, lo: nat, hi: nat): seq<A>
    decreases hi - lo
  {
    if hi <= lo then [] else step(lo).actions + Steps(step, lo + 1, hi)
  }

  /** The loop from global step `k` on. `limit == None` is an endless loop,
      which this function only enters when a stop request will be seen. */
  function RunFrom<A>(step: nat -> Step<A>, k: nat, limit: Option<nat>, stop: Option<nat>): (r: Run<A>)
    requires limit.Some? ==> k <= limit.value
    requires limit.None? ==> stop.Some? && k <= stop.value
    decreases if limit.Some? then limit.value - k else stop.value - k
    // the run ends at the first step that reaches the limit, sees the stop
    // request or raises, checked in that order
    ensures k <= r.steps
    ensures limit.Some? ==> r.steps <= limit.value
    ensures r.outcome == Completed <==> limit == Some(r.steps)
    ensures r.outcome == Cancelled ==> StopSeen(stop, r.steps)
    ensures r.outcome == Raised ==> !StopSeen(stop, r.steps) && step(r.steps).raised
    // the trace is every completed step's actions, then what the raising step did
    ensures r.actions == Steps(step, k, r.steps) + (if r.outcome == Raised then step(r.steps).actions else [])
  {
    if limit == Some(k) then
      Run([], k, Completed)
    else if StopSeen(stop, k) then
      Run([], k, Cancelled)
    else if step(k).raised then
      Run(step(k).actions, k, Raised)
    else
      var rest := RunFrom(step, k + 1, limit, stop);
      Run(step(k).actions + rest.actions, rest.steps, rest.outcome)
  }

  /** The run ends at the first step that reaches the limit, sees the stop
      request or raises: every step before it was processed uninterrupted. */
  lemma {:induction false} NothingEndsEarly<A>(step: nat -> Step<A>, k: nat, limit: Option<nat>, stop: Option<nat>, j: nat)
    requires limit.Some? ==> k <= limit.value
    requires limit.None? ==> stop.Some? && k <= stop.value
    requires k <= j < RunFrom(step, k, limit, stop).steps
    ensures limit != Some(j) && !StopSeen(stop, j) && !step(j).raised
    decreases if limit.Some? then limit.value - k else stop.value - k
  {
    if j > k {
      NothingEndsEarly(step, k + 1, limit, stop, j);
    }
  }

  /** Steps concatenate: the trace of `lo .. hi` is that of `lo .. mid` followed by `mid .. hi`. */
  lemma {:induction false} StepsSplit<A>(step: nat -> Step<A>, lo: nat, mid: nat, hi: nat)
    requires lo <= mid <= hi
    ensures Steps(step, lo, hi) == Steps(step, lo, mid) + Steps(step, mid, hi)
    decreases mid - lo
  {
    if lo < mid {
      StepsSplit(step, lo + 1, mid, hi);
    }
  }

  /** Steps that agree, from `j` on, with another step function shifted by
      `base` emit what it emits. */
  lemma {:induction false} StepsShifted<A>(step: nat -> Step<A>, local: nat -> Step<A>, base: nat, j: nat, n: nat)
    requires j <= n
    requires forall i :: j <= i < n ==> step(base + i) == local(i)
    ensures Steps(step, base + j, base + n) == Steps(local, j, n)
    decreases n - j
  {
    if j < n {
      StepsShifted(step, local, base, j + 1, n);
      assert base + j + 1 == base + (j + 1);
    }
  }

  /** When no step raises before the limit and stop is not seen before it,
      the run completes with every step up to the limit. */
  lemma {:induction false} RunCompletes<A>(step: nat -> Step<A>, k: nat, limit: nat, stop: Option<nat>)
    requires k <= limit
    requires forall j :: k <= j < limit ==> !StopSeen(stop, j) && !step(j).raised
    ensures RunFrom(step, k, Some(limit), stop) == Run(Steps(step, k, limit), limit, Completed)
    decreases limit - k
  {
    if k < limit {
      RunCompletes(step, k + 1, limit, stop);
    }
  }

  /** A stop request seen before step `c` (and no exception before it) cuts the run to
      exactly the first `c - k` steps: nothing from step `c` on is emitted. */
  lemma {:induction false} RunCancels<A>(step: nat -> Step<A>, k: nat, limit: Option<nat>, c: nat)
    requires k <= c
    requires limit.Some? ==> c < limit.value
    requires forall j :: k <= j < c ==> !step(j).raised
    ensures RunFrom(step, k, limit, Some(c)) == Run(Steps(step, k, c), c, Cancelled)
    decreases c - k
  {
    if k < c {
      RunCancels(step, k + 1, limit, c);
    }
  }

  /** The step function of a loop over `events` that hands each event to
      `handle`: global step `k` handles `events[k % |events|]`; with no events
      a step does nothing. */
  function Cyclic<E, A>(handle: E -> Step<A>, events: seq<E>): nat -> Step<A>
  {
    (k: nat) => if |events| == 0 then Step([], false) else handle(events[Cycle(k, |events|)])
  }

  /** The actions of handling each event once, in list order. */
  function EachActions<E, A>(handle: E -> Step<A>, events: seq<E>): seq<A>
  {
    if |events| == 0 then [] else handle(events[0]).actions + EachActions(handle, events[1..])
  }

  /** Step `j` of pass `q` handles event `j`. */
  lemma CyclicAt<E, A>(handle: E -> Step<A>, events: seq<E>, q: nat, j: nat)
    requires j < |events|
    ensures Cyclic(handle, events)(PassStart(q, |events|) + j) == handle(events[j])
  {
    CycleOf(q, |events|, j);
  }

  /** From global step `k` of pass `q` on, the rest of the pass handles the
      events from index `k - PassStart(q, n)` on, in list order. */
  lemma {:induction false} CyclicRest<E, A>(handle: E -> Step<A>, events: seq<E>, q: nat, k: nat)
    requires PassStart(q, |events|) <= k <= PassStart(q, |events|) + |events|
    ensures Steps(Cyclic(handle, events), k, PassStart(q, |events|) + |events|)
      == EachActions(handle, events[k - PassStart(q, |events|)..])
    decreases PassStart(q, |events|) + |events| - k
  {
    var step := Cyclic(handle, events);
    var base := PassStart(q, |events|);
    var hi := base + |events|;
    if k < hi {
      var j := k - base;
      CyclicRest(handle, events, q, k + 1);
      CyclicAt(handle, events, q, j);
      assert events[j..][0] == events[j];
      assert events[j..][1..] == events[k + 1 - base..];
      assert Steps(step, k, hi) == step(k).actions + Steps(step, k + 1, hi);
    }
  }

  /** Each pass handles every event once, in list order. */
  lemma CyclicPass<E, A>(handle: E -> Step<A>, events: seq<E>, q: nat)
    ensures Steps(Cyclic(handle, events), PassStart(q, |events|), PassStart(q, |events|) + |events|)
      == EachActions(handle, events)
  {
    CyclicRest(handle, events, q, PassStart(q, |events|));
    assert events[0..] == events;
  }

  /** The first `r` passes handle the whole list `r` times over. */
  lemma {:induction false} CyclicPasses<E, A>(handle: E -> Step<A>, events: seq<E>, r: nat)
    ensures Steps(Cyclic(handle, events), 0, PassStart(r, |events|)) == Repeat(EachActions(handle, events), r)
  {
    if r > 0 {
      var mid := PassStart(r - 1, |events|);
      StepsSplit(Cyclic(handle, events), 0, mid, PassStart(r, |events|));
      CyclicPasses(handle, events, r - 1);
      CyclicPass(handle, events, r - 1);
      RepeatSnoc(EachActions(handle, events), r - 1);
    }
  }

  /** The step function of a loop over `events` whose handling of an event also
      depends on its pass and on the global step: step `k` hands `events[k % n]`
      to `handle` with pass `k / n` and `k` itself. */
  function Timed<E, A>(handle: (E, nat, nat) -> Step<A>, events: seq<E>): nat -> Step<A>
  {
    (k: nat) =>
      if |events| == 0 then Step([], false)
      else handle(events[Cycle(k, |events|)], PassOf(k, |events|), k)
  }

  /** Pass `q` of such a loop seen from inside: its step `j` hands `events[j]`
      to `handle` with pass `q` and global step `PassStart(q, n) + j`. */
  function TimedPass<E, A>(handle: (E, nat, nat) -> Step<A>, events: seq<E>, q: nat): nat -> Step<A>
  {
    (j: nat) =>
      if j < |events| then handle(events[j], q, PassStart(q, |events|) + j)
      else Step([], false)
  }

  /** The actions of passes `0 .. r-1` of such a loop, one after the other. */
  function TimedPasses<E, A>(handle: (E, nat, nat) -> Step<A>, events: seq<E>, r: nat): seq<A>
  {
    if r == 0 then []
    else TimedPasses(handle, events, r - 1) + Steps(TimedPass(handle, events, r - 1), 0, |events|)
  }

  /** Step `j` of pass `q` hands event `j` over with pass `q`. */
  lemma TimedAt<E, A>(handle: (E, nat, nat) -> Step<A>, events: seq<E>, q: nat, j: nat)
    requires j < |events|
    ensures Timed(handle, events)(PassStart(q, |events|) + j)
      == handle(events[j], q, PassStart(q, |events|) + j)
  {
    CycleOf(q, |events|, j);
  }

  /** The global steps of pass `q` are the pass's own steps. */
  lemma TimedPassSteps<E, A>(handle: (E, nat, nat) -> Step<A>, events: seq<E>, q: nat)
    ensures Steps(Timed(handle, events), PassStart(q, |events|), PassStart(q, |events|) + |events|)
      == Steps(TimedPass(handle, events, q), 0, |events|)
  {
    forall i | 0 <= i < |events|
      ensures Timed(handle, events)(PassStart(q, |events|) + i) == TimedPass(handle, events, q)(i)
    {
      TimedAt(handle, events, q, i);
    }
    StepsShifted(Timed(handle, events), TimedPass(handle, events, q), PassStart(q, |events|), 0, |events|);
  }

  /** The first `r` passes run one after the other, each over the whole list. */
  lemma {:induction false} TimedByPass<E, A>(handle: (E, nat, nat) -> Step<A>, events: seq<E>, r: nat)
    ensures Steps(Timed(handle, events), 0, PassStart(r, |events|)) == TimedPasses(handle, events, r)
  {
    if r > 0 {
      var mid := PassStart(r - 1, |events|);
      StepsSplit(Timed(handle, events), 0, mid, PassStart(r, |events|));
      TimedByPass(handle, events, r - 1);
      TimedPassSteps(handle, events, r - 1);
    }
  }

  /** The time at which each event of one pass is handled when the clock only
      advances while the player sleeps: an event handled when the one before it
      was handled at `t` (`start` for the first) is handled `spent(e, t)`
      seconds after `t`. */
  function Paced<E>(events: seq<E>, start: real, spent: (E, real) -> real): (ts: seq<real>)
    ensures |ts| == |events|
  {
    if |events| == 0 then []
    else
      var prev := Paced(events[..|events| - 1], start, spent);
      var before := if |prev| == 0 then start else prev[|prev| - 1];
      prev + [before + spent(events[|events| - 1], before)]
  }

  /** Appending an event leaves the times of the earlier ones as they were. */
  lemma PacedEarlier<E>(events: seq<E>, start: real, spent: (E, real) -> real, i: nat)
    requires i < |events| - 1
    ensures Paced(events, start, spent)[i] == Paced(events[..|events| - 1], start, spent)[i]
  {
  }

  /** The last event is handled what it spends after the one before it. */
  lemma PacedLast<E>(events: seq<E>, start: real, spent: (E, real) -> real)
    requires |events| > 0
    ensures var n := |events|;
      var before := if n == 1 then start else Paced(events[..n - 1], start, spent)[n - 2];
      Paced(events, start, spent)[n - 1] == before + spent(events[n - 1], before)
  {
  }

  /** When each event spends a fixed time, whatever the clock, event `i` is
      handled at `start` plus the fixed times of events `0..i`. */
  lemma {:induction false} PacedSum<E>(events: seq<E>, start: real, spent: (E, real) -> real, fixed: E -> real, i: nat)
    requires i < |events|
    requires forall j, t :: 0 <= j < |events| ==> spent(events[j], t) == fixed(events[j])
    ensures Paced(events, start, spent)[i] == start + Slept(events[..i + 1], fixed)
  {
    var n := |events|;
    var prefix := events[..n - 1];
    if i < n - 1 {
      PacedSum(prefix, start, spent, fixed, i);
      PacedEarlier(events, start, spent, i);
      assert prefix[..i + 1] == events[..i + 1];
    } else {
      if n > 1 {
        PacedSum(prefix, start, spent, fixed, n - 2);
        assert prefix[..n - 2 + 1] == prefix;
      }
      PacedLast(events, start, spent);
      assert events[..i + 1] == events;
      assert Slept(events, fixed) == Slept(prefix, fixed) + fixed(events[n - 1]);
    }
  }

  /** The latest of `start` and the times `time` gives the events. */
  function LatestOf<E>(events: seq<E>, start: real, time: E -> real): real
  {
    if |events| == 0 then start
    else
      var t := LatestOf(events[..|events| - 1], start, time);
      if time(events[|events| - 1]) > t then time(events[|events| - 1]) else t
  }

  /** When each event waits until its own time and no longer, event `i` is
      handled at the latest time among `start` and events `0..i`: on time when it
      is not behind, and with no wait at all when an earlier event already ran
      later than its time. */
  lemma {:induction false} PacedLatest<E>(events: seq<E>, start: real, spent: (E, real) -> real, time: E -> real, i: nat)
    requires i < |events|
    requires forall j, t :: 0 <= j < |events| ==>
      spent(events[j], t) == (if time(events[j]) > t then time(events[j]) - t else 0.0)
    ensures Paced(events, start, spent)[i] == LatestOf(events[..i + 1], start, time)
  {
    var n := |events|;
    var prefix := events[..n - 1];
    if i < n - 1 {
      PacedLatest(prefix, start, spent, time, i);
      PacedEarlier(events, start, spent, i);
      assert prefix[..i + 1] == events[..i + 1];
    } else {
      if n > 1 {
        PacedLatest(prefix, start, spent, time, n - 2);
        assert prefix[..n - 2 + 1] == prefix;
      }
      PacedLast(events, start, spent);
      assert events[..i + 1] == events;
    }
  }

  /** Times that start at or after `start` and never decrease: the latest is the last. */
  lemma {:induction false} LatestOfSorted<E>(events: seq<E>, start: real, time: E -> real)
    requires |events| > 0
    requires forall i, j :: 0 <= i <= j < |events| ==> start <= time(events[i]) <= time(events[j])
    ensures LatestOf(events, start, time) == time(events[|events| - 1])
  {
    if |events| > 1 {
      LatestOfSorted(events[..|events| - 1], start, time);
    }
  }

  /** The sum of `seconds` over a list: the seconds a trace spends asleep, given
      how long each action sleeps, or the total of a list's delays. */
  function Slept<A>(actions: seq<A>, seconds: A -> real): real
  {
    if |actions| == 0 then 0.0 else Slept(actions[..|actions| - 1], seconds) + seconds(actions[|actions| - 1])
  }

  lemma {:induction false} SleptAppend<A>(a: seq<A>, b: seq<A>, seconds: A -> real)
    ensures Slept(a + b, seconds) == Slept(a, seconds) + Slept(b, seconds)
    decreases |b|
  {
    if |b| > 0 {
      assert (a + b)[..|a + b| - 1] == a + b[..|b| - 1];
      SleptAppend(a, b[..|b| - 1], seconds);
    } else {
      assert a + b == a;
    }
  }

  lemma {:induction false} SleptNothing<A>(a: seq<A>, seconds: A -> real)
    requires forall i :: 0 <= i < |a| ==> seconds(a[i]) == 0.0
    ensures Slept(a, seconds) == 0.0
  {
    if |a| > 0 {
      SleptNothing(a[..|a| - 1], seconds);
    }
  }
}
