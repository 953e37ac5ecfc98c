/** The timeline sequencer: ticks at arbitrary times, against the ideal unrolled schedule. */
module Sequencer {
  import Bits
  import opened ShowTypes
  import opened Timeline

  const NS: int := 1_000_000_000
  const CYCLE_START_EPSILON: real := 0.000001

  type Line = ShowTypes.Timeline<real>

  datatype Player = Player(playing: bool, cycleStart: int, lastElapsed: real)

  function Seconds(t: int): (s: real)
    ensures s * 1_000_000_000.0 == t as real
  {
    t as real / NS as real
  }

  /** A duration cut to whole clock ticks. */
  function WholeTicks(seconds: real): (w: int)
    ensures w as real <= seconds * 1_000_000_000.0 < w as real + 1.0
  {
    (seconds * NS as real).Floor
  }

  predicate Looping(x: Line) { x.loop && x.durationSeconds > 0.0 }

  function Before0(): real { -CYCLE_START_EPSILON }

  /** What the catch-up loop and the final partial interval fire. */
  datatype Caught = Caught(cues: seq<nat>, wraps: nat, elapsed: real)

  function Cycles(now: real, duration: real): int
    requires duration > 0.0
  {
    (now / duration).Floor
  }

  lemma QuotientOfProduct(x: real, q: real, d: real)
    requires d > 0.0 && x == q * d
    ensures x / d == q
  {}

  lemma OneCycleLess(now: real, duration: real)
    requires duration > 0.0
    ensures Cycles(now - duration, duration) == Cycles(now, duration) - 1
    ensures now >= duration ==> Cycles(now, duration) >= 1
  {
    var q := now / duration;
    assert q * duration == now;
    assert (q - 1.0) * duration == now - duration;
    QuotientOfProduct(now - duration, q - 1.0, duration);
    if now >= duration {
      assert q >= 1.0;
    }
  }

  /** k times w, by repeated addition. */
  function Times(k: nat, w: int): int { if k == 0 then 0 else Times(k - 1, w) + w }

  ghost function Span(k: nat, d: real): real { if k == 0 then 0.0 else Span(k - 1, d) + d }

  function CatchUp(x: Line, last: real, now: real): Caught
    requires Looping(x)
    decreases if now >= x.durationSeconds then Cycles(now, x.durationSeconds) else 0
  {
    if now >= x.durationSeconds then
      OneCycleLess(now, x.durationSeconds);
      var r := CatchUp(x, Before0(), now - x.durationSeconds);
      Caught(CuesIn(x.steps, last, x.durationSeconds) + r.cues, r.wraps + 1, r.elapsed)
    else Caught(CuesIn(x.steps, last, now), 0, now)
  }

  function Ticked(x: Line, p: Player, t: int): (Player, seq<nat>) {
    var now := Seconds(t - p.cycleStart);
    if !p.playing then (p, [])
    else if Looping(x) then
      var r := CatchUp(x, p.lastElapsed, now);
      (Player(true, p.cycleStart + Times(r.wraps, WholeTicks(x.durationSeconds)), r.elapsed), r.cues)
    else (Player(!IsFinished(x.loop, x.durationSeconds, now), p.cycleStart, now), CuesIn(x.steps, p.lastElapsed, now))
  }

  function Started(now: int): Player { Player(true, now, Before0()) }

  /** A run of ticks and everything it fired. */
  function Ticks(x: Line, p: Player, times: seq<int>): (Player, seq<nat>) {
    if |times| == 0 then (p, [])
    else
      var (p1, cues) := Ticks(x, p, times[..|times| - 1]);
      var (p2, more) := Ticked(x, p1, times[|times| - 1]);
      (p2, cues + more)
  }

  class Sequencer {
    var timeline: Line
    var playing: bool
    var cycleStart: int
    var lastElapsed: real

    ghost function View(): Player
      reads this
    {
      Player(playing, cycleStart, lastElapsed)
    }

    constructor (timeline: Line)
      ensures !playing && this.timeline == timeline
    {
      this.timeline := timeline;
      playing, cycleStart, lastElapsed := false, 0, 0.0;
    }

    method SetTimeline(x: Line)
      modifies this
      ensures timeline == x && View() == old(View())
    {
      timeline := x;
    }

    method Start(now: int)
      modifies this
      ensures timeline == old(timeline) && View() == Started(now)
    {
      playing, cycleStart, lastElapsed := true, now, -CYCLE_START_EPSILON;
    }

    method Stop()
      modifies this
      ensures timeline == old(timeline) && View() == old(View()).(playing := false)
    {
      playing := false;
    }

    method Tick(clock: int) returns (toTrigger: seq<nat>)
      modifies this
      ensures timeline == old(timeline)
      ensures (View(), toTrigger) == Ticked(timeline, old(View()), clock)
    {
      hide CuesIn, CuesOf, WholeTicks, Seconds, Cycles;
      toTrigger := [];
      if !playing {
        return;
      }
      var now := Seconds(clock - cycleStart);
      if timeline.loop && timeline.durationSeconds > 0.0 {
        var duration := timeline.durationSeconds;
        ghost var goal := CatchUp(timeline, lastElapsed, now);
        ghost var start0 := cycleStart;
        ghost var wraps := 0;
        while now >= duration
          invariant playing && timeline == old(timeline) && duration == timeline.durationSeconds && Looping(timeline)
          invariant cycleStart == start0 + Times(wraps, WholeTicks(duration))
          invariant var r := CatchUp(timeline, lastElapsed, now);
            toTrigger + r.cues == goal.cues && wraps + r.wraps == goal.wraps && r.elapsed == goal.elapsed
          decreases if now >= duration then Cycles(now, duration) else 0
        {
          OneCycleLess(now, duration);
          var due := StepsInInterval(timeline.steps, lastElapsed, duration);
          toTrigger := toTrigger + CuesOf(timeline.steps, due);
          cycleStart := cycleStart + WholeTicks(duration);
          now := now - duration;
          lastElapsed := -CYCLE_START_EPSILON;
          wraps := wraps + 1;
        }
        var due := StepsInInterval(timeline.steps, lastElapsed, now);
        toTrigger := toTrigger + CuesOf(timeline.steps, due);
        lastElapsed := now;
        assert CatchUp(timeline, old(lastElapsed), Seconds(clock - old(cycleStart))) == goal;
        assert View() == Ticked(timeline, old(View()), clock).0;
        assert toTrigger == goal.cues;
      } else {
        var due := StepsInInterval(timeline.steps, lastElapsed, now);
        toTrigger := toTrigger + CuesOf(timeline.steps, due);
        lastElapsed := now;
        if IsFinished(timeline.loop, timeline.durationSeconds, now) {
          playing := false;
        }
        assert View() == Ticked(timeline, old(View()), clock).0;
        assert toTrigger == CuesIn(timeline.steps, old(lastElapsed), now);
      }
    }
  }

  // ---- the ideal schedule --------------------------------------------------

  function Repeat(cues: seq<nat>, k: nat): seq<nat> {
    if k == 0 then [] else Repeat(cues, k - 1) + cues
  }

  /** Cues of one whole cycle, and of the part of a cycle up to a time. */
  function Cycle(x: Line): seq<nat> { CuesIn(x.steps, Before0(), x.durationSeconds) }

  function UpTo(x: Line, elapsed: real): seq<nat> { CuesIn(x.steps, Before0(), elapsed) }

  predicate Nondecreasing(start: int, times: seq<int>) {
    && (forall i :: 0 <= i < |times| ==> start <= times[i])
    && forall i, j :: 0 <= i < j < |times| ==> times[i] <= times[j]
  }

  lemma {:induction false} RepeatFront(cues: seq<nat>, k: nat)
    ensures Repeat(cues, k + 1) == cues + Repeat(cues, k)
  {
    if k == 0 {
      assert Repeat(cues, 1) == Repeat(cues, 0) + cues;
    } else {
      RepeatFront(cues, k - 1);
    }
  }

  lemma {:induction false} RepeatAdd(cues: seq<nat>, a: nat, b: nat)
    ensures Repeat(cues, a + b) == Repeat(cues, a) + Repeat(cues, b)
    decreases b
  {
    if b == 0 {
    } else {
      RepeatAdd(cues, a, b - 1);
    }
  }

  lemma FinishCycle(x: Line, last: real, cues: seq<nat>, k: nat, elapsed: real)
    requires Sorted(x.steps) && Before0() <= last <= x.durationSeconds
    requires UpTo(x, Before0()) + cues == Repeat(Cycle(x), k) + UpTo(x, elapsed)
    ensures UpTo(x, last) + (CuesIn(x.steps, last, x.durationSeconds) + cues)
         == Repeat(Cycle(x), k + 1) + UpTo(x, elapsed)
  {
    hide CuesIn, Sorted;
    NothingDue(x.steps, Before0(), Before0());
    Join(x.steps, Before0(), last, x.durationSeconds);
    RepeatFront(Cycle(x), k);
    assert UpTo(x, Before0()) + cues == cues;
  }

  /** One catch-up completes the cycle in progress, adds whole cycles, and opens the next. */
  lemma {:induction false} CatchUpShape(x: Line, last: real, now: real)
    requires Looping(x) && Sorted(x.steps)
    requires Before0() <= last < x.durationSeconds && last <= now
    ensures var r := CatchUp(x, last, now);
            && UpTo(x, last) + r.cues == Repeat(Cycle(x), r.wraps) + UpTo(x, r.elapsed)
            && r.elapsed == now - Span(r.wraps, x.durationSeconds)
            && Before0() <= r.elapsed < x.durationSeconds
            && (now >= 0.0 ==> r.elapsed >= 0.0)
    decreases if now >= x.durationSeconds then Cycles(now, x.durationSeconds) else 0
  {
    hide CuesIn, Sorted, Cycles;
    var d := x.durationSeconds;
    if now >= d {
      OneCycleLess(now, d);
      CatchUpShape(x, Before0(), now - d);
      var r := CatchUp(x, Before0(), now - d);
      FinishCycle(x, last, r.cues, r.wraps, r.elapsed);
    } else {
      Join(x.steps, Before0(), last, now);
      assert Repeat(Cycle(x), 0) + UpTo(x, now) == UpTo(x, now);
    }
  }

  lemma TicksFit(d: real)
    requires d > 0.0
    ensures 0 <= WholeTicks(d) && Seconds(WholeTicks(d)) <= d
  {}

  /** Rolling the reference forward loses less than it should, never more. */
  lemma {:induction false} Drift(t: int, start: int, k: nat, w: int, d: real)
    requires Seconds(w) <= d
    ensures Seconds(t - (start + Times(k, w))) >= Seconds(t - start) - Span(k, d)
    ensures Seconds(w) == d ==> Seconds(t - (start + Times(k, w))) == Seconds(t - start) - Span(k, d)
  {
    if k == 0 {
    } else {
      Drift(t, start, k - 1, w, d);
    }
  }

  lemma {:induction false} TimesAdd(a: nat, b: nat, w: int)
    ensures Times(a + b, w) == Times(a, w) + Times(b, w)
    decreases b
  {
    if b == 0 {
    } else {
      TimesAdd(a, b - 1, w);
    }
  }

  lemma {:induction false} TimesIsProduct(k: nat, w: int)
    ensures Times(k, w) == k * w
  {
    if k == 0 {
    } else {
      TimesIsProduct(k - 1, w);
      assert (k - 1) * w + w == k * w;
    }
  }

  /** Wraps counted so far. */
  function Wraps(x: Line, p: Player, times: seq<int>): nat {
    if |times| == 0 then 0
    else
      var p1 := Ticks(x, p, times[..|times| - 1]).0;
      Wraps(x, p, times[..|times| - 1])
      + if p1.playing && Looping(x) then CatchUp(x, p1.lastElapsed, Seconds(times[|times| - 1] - p1.cycleStart)).wraps
        else 0
  }

  /** What holds after every tick of a looping run started at `start`. */
  ghost predicate OnSchedule(x: Line, start: int, times: seq<int>) {
    var (p, cues) := Ticks(x, Started(start), times);
    var k := Wraps(x, Started(start), times);
    && cues == Repeat(Cycle(x), k) + UpTo(x, p.lastElapsed)
    && p.playing && p.cycleStart == start + Times(k, WholeTicks(x.durationSeconds))
    && Before0() <= p.lastElapsed < x.durationSeconds
    && (|times| > 0 ==>
          && 0.0 <= p.lastElapsed <= Seconds(times[|times| - 1] - p.cycleStart)
          && (Seconds(WholeTicks(x.durationSeconds)) == x.durationSeconds ==>
                p.lastElapsed == Seconds(times[|times| - 1] - p.cycleStart)))
  }

  lemma OneTick(x: Line, p: Player, t: int, t0: int)
    requires Looping(x) && Sorted(x.steps) && p.playing
    requires Before0() <= p.lastElapsed < x.durationSeconds
    requires p.lastElapsed <= Seconds(t0 - p.cycleStart) && t0 <= t && Seconds(t - p.cycleStart) >= 0.0
    ensures var (p', more) := Ticked(x, p, t);
            var k := CatchUp(x, p.lastElapsed, Seconds(t - p.cycleStart)).wraps;
            && UpTo(x, p.lastElapsed) + more == Repeat(Cycle(x), k) + UpTo(x, p'.lastElapsed)
            && p'.playing && p'.cycleStart == p.cycleStart + Times(k, WholeTicks(x.durationSeconds))
            && 0.0 <= p'.lastElapsed < x.durationSeconds
            && p'.lastElapsed <= Seconds(t - p'.cycleStart)
            && (Seconds(WholeTicks(x.durationSeconds)) == x.durationSeconds ==>
                  p'.lastElapsed == Seconds(t - p'.cycleStart))
  {
    var now := Seconds(t - p.cycleStart);
    assert Seconds(t0 - p.cycleStart) <= now;
    CatchUpShape(x, p.lastElapsed, now);
    TicksFit(x.durationSeconds);
    Drift(t, p.cycleStart, CatchUp(x, p.lastElapsed, now).wraps, WholeTicks(x.durationSeconds), x.durationSeconds);
  }

  lemma {:induction false} ScheduleKept(x: Line, start: int, times: seq<int>)
    requires Looping(x) && Sorted(x.steps) && Nondecreasing(start, times)
    ensures OnSchedule(x, start, times)
  {
    hide CatchUp, CuesIn, WholeTicks, Seconds, Sorted;
    if |times| == 0 {
      NothingDue(x.steps, Before0(), Before0());
    } else {
      ScheduleKept(x, start, times[..|times| - 1]);
      NextTickOnSchedule(x, start, times);
    }
  }

  lemma NextTickOnSchedule(x: Line, start: int, times: seq<int>)
    requires Looping(x) && Sorted(x.steps) && Nondecreasing(start, times) && |times| > 0
    requires OnSchedule(x, start, times[..|times| - 1])
    ensures OnSchedule(x, start, times)
  {
    hide Ticked, CatchUp, CuesIn, WholeTicks, Seconds, Sorted, Times, Repeat, UpTo, Cycle;
    var n := |times|;
    var init := times[..n - 1];
    var (p, cues) := Ticks(x, Started(start), init);
    var t := times[n - 1];
    var t0 := if n == 1 then start else times[n - 2];
    assert n > 1 ==> init[|init| - 1] == t0;
    SecondsFacts(t0, t, p.cycleStart);
    if n == 1 {
      assert p == Started(start);
    }
    OneTick(x, p, t, t0);
    var k, k' := Wraps(x, Started(start), init), Wraps(x, Started(start), times);
    var (p', more) := Ticked(x, p, t);
    assert Ticks(x, Started(start), times) == (p', cues + more);
    RepeatAdd(Cycle(x), k, k' - k);
    calc {
      cues + more;
      Repeat(Cycle(x), k) + UpTo(x, p.lastElapsed) + more;
      Repeat(Cycle(x), k) + (UpTo(x, p.lastElapsed) + more);
      Repeat(Cycle(x), k) + (Repeat(Cycle(x), k' - k) + UpTo(x, p'.lastElapsed));
      Repeat(Cycle(x), k') + UpTo(x, p'.lastElapsed);
    }
    TimesAdd(k, k' - k, WholeTicks(x.durationSeconds));
  }

  lemma SecondsFacts(t0: int, t: int, start: int)
    requires t0 <= t
    ensures Seconds(t0 - start) <= Seconds(t - start)
    ensures start <= t0 ==> Seconds(t0 - start) >= 0.0
    ensures Before0() <= 0.0
  {}

  /** Arbitrary nondecreasing tick times fire exactly the ideal unrolled schedule: as many
      whole cycles as were wrapped, then the steps up to the current position. */
  lemma UnrolledSchedule(x: Line, start: int, times: seq<int>)
    requires Looping(x) && Sorted(x.steps) && AllWithin(x.steps, 0.0, x.durationSeconds)
    requires Nondecreasing(start, times)
    ensures var (p, cues) := Ticks(x, Started(start), times);
            cues == Repeat(AllCues(x.steps), Wraps(x, Started(start), times)) + UpTo(x, p.lastElapsed)
  {
    ScheduleKept(x, start, times);
    WholeStretch(x.steps, Before0(), x.durationSeconds);
  }

  /** With a duration of whole clock ticks the trace depends only on the last tick's time:
      quotient cycles and the steps up to the remainder. */
  lemma QuotientAndRemainder(x: Line, start: int, times: seq<int>)
    requires Looping(x) && Sorted(x.steps) && AllWithin(x.steps, 0.0, x.durationSeconds)
    requires Seconds(WholeTicks(x.durationSeconds)) == x.durationSeconds
    requires Nondecreasing(start, times) && |times| > 0
    ensures var d := WholeTicks(x.durationSeconds);
            var e := times[|times| - 1] - start;
            && d > 0 && e >= 0
            && Ticks(x, Started(start), times).1
            == Repeat(AllCues(x.steps), e / d) + UpTo(x, Seconds(e % d))
  {
    hide Ticks, Repeat, UpTo, Wraps, Sorted, AllWithin, Times;
    ScheduleKept(x, start, times);
    UnrolledSchedule(x, start, times);
    var (p, cues) := Ticks(x, Started(start), times);
    var d := WholeTicks(x.durationSeconds);
    var k := Wraps(x, Started(start), times);
    var e := times[|times| - 1] - start;
    var r := e - Times(k, d);
    assert p.lastElapsed == Seconds(r);
    RemainderBounds(r, d, x.durationSeconds);
    TimesIsProduct(k, d);
    Bits.DivModUnique(e, d, k, r);
  }

  lemma RemainderBounds(r: int, d: int, duration: real)
    requires 0.0 <= Seconds(r) < duration && Seconds(d) == duration
    ensures 0 <= r < d
  {}

  /** Two runs that end at the same time have fired the same cues, however they were ticked. */
  lemma TickIndependence(x: Line, start: int, times: seq<int>, times': seq<int>)
    requires Looping(x) && Sorted(x.steps) && AllWithin(x.steps, 0.0, x.durationSeconds)
    requires Seconds(WholeTicks(x.durationSeconds)) == x.durationSeconds
    requires Nondecreasing(start, times) && Nondecreasing(start, times') && |times| > 0 && |times'| > 0
    requires times[|times| - 1] == times'[|times'| - 1]
    ensures Ticks(x, Started(start), times).1 == Ticks(x, Started(start), times').1
  {
    hide Ticks, Repeat, UpTo, WholeTicks, Seconds, Sorted, AllWithin;
    QuotientAndRemainder(x, start, times);
    QuotientAndRemainder(x, start, times');
  }

  /** One such pair of runs for a cycle that is not whole ticks: with one and a half clock
      ticks, ticking once at time 3 fires two cues and ticking at 2 and 3 fires three. */
  lemma FractionalCycleDepends()
    ensures var x := Timeline([], [TimelineStep(0.0000000005, 0)], 0.0000000015, true);
            && Looping(x) && Sorted(x.steps) && AllWithin(x.steps, 0.0, x.durationSeconds)
            && Ticks(x, Started(0), [3]).1 == [0, 0] && Ticks(x, Started(0), [2, 3]).1 == [0, 0, 0]
  {
    var d, h := 0.0000000015, 0.0000000005;
    var x: Line := Timeline([], [TimelineStep(h, 0)], d, true);
    assert WholeTicks(d) == 1;
    OneStep(x, Before0(), 0.0);
    OneStep(x, Before0(), d);
    OneStep(x, Before0(), h);
    OneStep(x, h, d);
    var r0 := CatchUp(x, Before0(), 0.0);
    var r1 := CatchUp(x, Before0(), d);
    assert r1 == Caught([0] + [], 1, 0.0);
    var r2 := CatchUp(x, Before0(), d + d);
    assert r2 == Caught([0] + r1.cues, 2, 0.0);
    var once := Ticks(x, Started(0), [3]);
    assert [3][..0] == [] && Ticked(x, Started(0), 3).1 == r2.cues;
    assert Times(1, 1) == 1;
    var e0 := CatchUp(x, Before0(), h);
    var e1 := CatchUp(x, Before0(), d + h);
    assert e1 == Caught([0] + [0], 1, h);
    var first := Ticked(x, Started(0), 2);
    assert Seconds(2) == d + h;
    assert first == (Player(true, 1, h), e1.cues);
    var e2 := CatchUp(x, h, d + h);
    assert e2 == Caught([] + [0], 1, h);
    assert [2, 3][..1] == [2] && [2][..0] == [];
    assert Ticks(x, Started(0), [2]) == (first.0, [] + first.1);
    assert Ticked(x, first.0, 3).1 == e2.cues;
  }

  lemma OneStep(x: Line, from: real, to: real)
    requires |x.steps| == 1
    ensures CuesIn(x.steps, from, to) == if Due(x.steps[0], from, to) then [x.steps[0].cueIndex] else []
  {
    assert CuesIn(x.steps[1..], from, to) == [];
  }

  /** A timeline that does not loop fires each step up to its last live tick once, in order. */
  lemma {:induction false} OnePass(x: Line, start: int, times: seq<int>)
    requires !Looping(x) && Sorted(x.steps) && Nondecreasing(start, times)
    ensures var (p, cues) := Ticks(x, Started(start), times);
            && p.cycleStart == start && cues == UpTo(x, p.lastElapsed)
            && (|times| > 0 ==> Before0() <= p.lastElapsed <= Seconds(times[|times| - 1] - start))
            && (p.playing && |times| > 0 ==> p.lastElapsed == Seconds(times[|times| - 1] - start))
            && (!p.playing ==> IsFinished(x.loop, x.durationSeconds, p.lastElapsed))
  {
    hide CuesIn, Sorted;
    var n := |times|;
    if n == 0 {
      NothingDue(x.steps, Before0(), Before0());
    } else {
      var init := times[..n - 1];
      OnePass(x, start, init);
      var p := Ticks(x, Started(start), init).0;
      var t := times[n - 1];
      if n > 1 {
        SecondsFacts(times[n - 2], t, start);
        assert init[|init| - 1] == times[n - 2];
      }
      SecondsFacts(start, t, start);
      if p.playing {
        Join(x.steps, Before0(), p.lastElapsed, Seconds(t - start));
      }
    }
  }
}
