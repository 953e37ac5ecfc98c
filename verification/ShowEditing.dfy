/** Removing a cue, and what that does to playback. */
module ShowEditing {
  import opened ShowTypes
  import opened Timeline
  import opened Sequencer

  function Without<T>(xs: seq<T>, i: nat): seq<T> {
    if i < |xs| then xs[..i] + xs[i + 1..] else xs
  }

  /** A cue index after the cue at `hole` is gone. */
  function Shift(cue: nat, hole: nat): nat {
    if cue > hole then cue - 1 else cue
  }

  function FixSteps<D>(ss: seq<TimelineStep<D>>, hole: nat): seq<TimelineStep<D>> {
    if |ss| == 0 then []
    else if ss[0].cueIndex == hole then FixSteps(ss[1..], hole)
    else [ss[0].(cueIndex := Shift(ss[0].cueIndex, hole))] + FixSteps(ss[1..], hole)
  }

  function WithoutCue<F, D>(s: Show<F, D>, i: nat): Show<F, D> {
    if i < |s.cues| then
      s.(cues := Without(s.cues, i), timeline := s.timeline.(steps := FixSteps(s.timeline.steps, i)))
    else s
  }

  /** A show open for editing. */
  class Document<F, D> {
    var show: Show<F, D>

    constructor (show: Show<F, D>)
      ensures this.show == show
    {
      this.show := show;
    }

    method RemoveCue(cueIndex: nat)
      modifies this
      ensures show == WithoutCue(old(show), cueIndex)
      ensures cueIndex >= |old(show).cues| ==> show == old(show)
      ensures show == old(show).(cues := show.cues, timeline := old(show).timeline.(steps := show.timeline.steps))
    {
      if cueIndex >= |show.cues| {
        return;
      }
      show := show.(cues := show.cues[..cueIndex] + show.cues[cueIndex + 1..]);
      var steps := show.timeline.steps;
      var kept: seq<TimelineStep<D>> := [];
      var i := 0;
      while i < |steps|
        invariant 0 <= i <= |steps|
        invariant kept + FixSteps(steps[i..], cueIndex) == FixSteps(steps, cueIndex)
        invariant show == old(show).(cues := Without(old(show).cues, cueIndex)) && steps == show.timeline.steps
      {
        assert steps[i..][1..] == steps[i + 1..];
        var step := steps[i];
        if step.cueIndex != cueIndex {
          var fixed := step;
          if fixed.cueIndex > cueIndex {
            fixed := fixed.(cueIndex := fixed.cueIndex - 1);
          }
          kept := kept + [fixed];
        }
        i := i + 1;
      }
      show := show.(timeline := show.timeline.(steps := kept));
    }
  }

  // ---- the cues that are left ----------------------------------------------

  /** What an index plays: the cue itself, nothing when it dangles. */
  datatype Played<T> = Nothing | Plays(cue: T)

  function Play<T>(all: seq<T>, index: nat): Played<T> {
    if index < |all| then Plays(all[index]) else Nothing
  }

  predicate InRange<D>(ss: seq<TimelineStep<D>>, n: nat) {
    forall i :: 0 <= i < |ss| ==> ss[i].cueIndex < n
  }

  /** Every surviving index still denotes the cue it denoted before. */
  lemma ShiftKeepsCue<T>(cues: seq<T>, hole: nat, c: nat)
    requires hole < |cues| && c < |cues| && c != hole
    ensures Shift(c, hole) < |Without(cues, hole)| && Without(cues, hole)[Shift(c, hole)] == cues[c]
  {}

  lemma {:induction false} FixKeepsRange<D>(ss: seq<TimelineStep<D>>, hole: nat, n: nat)
    requires InRange(ss, n) && hole < n
    ensures InRange(FixSteps(ss, hole), n - 1)
  {
    if |ss| == 0 {
    } else {
      FixKeepsRange(ss[1..], hole, n);
    }
  }

  lemma {:induction false} FixKeepsTimes(ss: Steps, hole: nat, lo: real, hi: real)
    requires Sorted(ss) && AllWithin(ss, lo, hi)
    ensures Sorted(FixSteps(ss, hole)) && AllWithin(FixSteps(ss, hole), lo, hi)
  {
    if |ss| == 0 {
    } else {
      FixKeepsTimes(ss[1..], hole, lo, hi);
      FixKeepsTimes(ss[1..], hole, ss[0].timeSeconds, hi);
    }
  }

  /** Editing keeps a timeline sorted, within its span, and pointing at existing cues. */
  lemma RemovalKeepsTimeline<F>(s: Show<F, real>, i: nat)
    requires Sorted(s.timeline.steps) && AllWithin(s.timeline.steps, 0.0, s.timeline.durationSeconds)
    requires InRange(s.timeline.steps, |s.cues|)
    ensures var s' := WithoutCue(s, i);
            && Sorted(s'.timeline.steps) && AllWithin(s'.timeline.steps, 0.0, s'.timeline.durationSeconds)
            && InRange(s'.timeline.steps, |s'.cues|)
  {
    if i < |s.cues| {
      FixKeepsTimes(s.timeline.steps, i, 0.0, s.timeline.durationSeconds);
      FixKeepsRange(s.timeline.steps, i, |s.cues|);
    }
  }

  lemma {:induction false} FixTwice<D>(ss: seq<TimelineStep<D>>, i: nat, j: nat)
    requires i < j
    ensures FixSteps(FixSteps(ss, j), i) == FixSteps(FixSteps(ss, i), j - 1)
  {
    if |ss| == 0 {
    } else {
      FixTwice(ss[1..], i, j);
    }
  }

  /** Nothing but the cue list and the steps changes, and out of range nothing does. */
  lemma RemovalKeepsRest<F, D>(s: Show<F, D>, i: nat)
    ensures i >= |s.cues| ==> WithoutCue(s, i) == s
    ensures i < |s.cues| ==> |WithoutCue(s, i).cues| == |s.cues| - 1
    ensures var s' := WithoutCue(s, i);
            && s'.name == s.name && s'.timeline.name == s.timeline.name
            && s'.timeline.durationSeconds == s.timeline.durationSeconds && s'.timeline.loop == s.timeline.loop
  {}

  /** Two removals commute once the later index is adjusted. */
  lemma RemovalsCommute<F, D>(s: Show<F, D>, i: nat, j: nat)
    requires i < j < |s.cues|
    ensures WithoutCue(WithoutCue(s, j), i) == WithoutCue(WithoutCue(s, i), j - 1)
  {
    FixTwice(s.timeline.steps, i, j);
    assert Without(Without(s.cues, j), i) == Without(Without(s.cues, i), j - 1);
  }

  /** When each step falls due and which cue it plays. */
  function Programme<T, D>(all: seq<T>, ss: seq<TimelineStep<D>>): seq<(D, Played<T>)> {
    if |ss| == 0 then []
    else [(ss[0].timeSeconds, Play(all, ss[0].cueIndex))] + Programme(all, ss[1..])
  }

  function StepsOfOthers<D>(ss: seq<TimelineStep<D>>, cue: nat): seq<TimelineStep<D>> {
    if |ss| == 0 then [] else (if ss[0].cueIndex == cue then [] else [ss[0]]) + StepsOfOthers(ss[1..], cue)
  }

  /** The steps left play the same cues at the same times as before. */
  lemma {:induction false} RemovalKeepsProgramme<T, D>(all: seq<T>, ss: seq<TimelineStep<D>>, hole: nat)
    requires hole < |all|
    ensures Programme(Without(all, hole), FixSteps(ss, hole)) == Programme(all, StepsOfOthers(ss, hole))
  {
    if |ss| == 0 {
    } else {
      RemovalKeepsProgramme(all, ss[1..], hole);
      if ss[0].cueIndex != hole {
        assert FixSteps(ss, hole)[1..] == FixSteps(ss[1..], hole);
        assert StepsOfOthers(ss, hole)[1..] == StepsOfOthers(ss[1..], hole);
        if ss[0].cueIndex < |all| {
          ShiftKeepsCue(all, hole, ss[0].cueIndex);
        }
      } else {
        assert StepsOfOthers(ss, hole) == StepsOfOthers(ss[1..], hole);
      }
    }
  }

  // ---- editing commutes with playback --------------------------------------

  /** A trace of cue indices with every trigger of one cue deleted, renumbered. */
  function FixTrace(cues: seq<nat>, hole: nat): seq<nat> {
    if |cues| == 0 then []
    else if cues[0] == hole then FixTrace(cues[1..], hole)
    else [Shift(cues[0], hole)] + FixTrace(cues[1..], hole)
  }

  function WithoutTriggers(cues: seq<nat>, hole: nat): seq<nat> {
    if |cues| == 0 then []
    else (if cues[0] == hole then [] else [cues[0]]) + WithoutTriggers(cues[1..], hole)
  }

  function Values<T>(all: seq<T>, trace: seq<nat>): (r: seq<Played<T>>)
    ensures |r| == |trace|
  {
    if |trace| == 0 then []
    else [Play(all, trace[0])] + Values(all, trace[1..])
  }

  lemma {:induction false} FixTraceConcat(a: seq<nat>, b: seq<nat>, hole: nat)
    ensures FixTrace(a + b, hole) == FixTrace(a, hole) + FixTrace(b, hole)
  {
    if |a| == 0 {
      assert a + b == b;
    } else {
      assert (a + b)[1..] == a[1..] + b;
      FixTraceConcat(a[1..], b, hole);
    }
  }

  lemma {:induction false} FixCuesIn(ss: Steps, hole: nat, from: real, to: real)
    ensures CuesIn(FixSteps(ss, hole), from, to) == FixTrace(CuesIn(ss, from, to), hole)
  {
    if |ss| == 0 {
    } else {
      FixCuesIn(ss[1..], hole, from, to);
      var head := if Due(ss[0], from, to) then [ss[0].cueIndex] else [];
      FixTraceConcat(head, CuesIn(ss[1..], from, to), hole);
      if ss[0].cueIndex != hole {
        assert FixSteps(ss, hole)[1..] == FixSteps(ss[1..], hole);
      }
    }
  }

  function Edited(x: Line, hole: nat): Line {
    x.(steps := FixSteps(x.steps, hole))
  }

  lemma {:induction false} FixCatchUp(x: Line, hole: nat, last: real, now: real)
    requires Looping(x)
    ensures var r := CatchUp(x, last, now);
            CatchUp(Edited(x, hole), last, now) == r.(cues := FixTrace(r.cues, hole))
    decreases if now >= x.durationSeconds then Cycles(now, x.durationSeconds) else 0
  {
    hide CuesIn, FixSteps, FixTrace, Cycles;
    var d := x.durationSeconds;
    if now >= d {
      OneCycleLess(now, d);
      FixCatchUp(x, hole, Before0(), now - d);
      FixCuesIn(x.steps, hole, last, d);
      FixTraceConcat(CuesIn(x.steps, last, d), CatchUp(x, Before0(), now - d).cues, hole);
    } else {
      FixCuesIn(x.steps, hole, last, now);
    }
  }

  /** The edited timeline drives the player through the same states and fires the same
      trace with the removed cue's triggers deleted, for any tick times whatever. */
  lemma {:induction false} EditThenPlay(x: Line, hole: nat, p: Player, times: seq<int>)
    ensures var (p', cues) := Ticks(x, p, times);
            Ticks(Edited(x, hole), p, times) == (p', FixTrace(cues, hole))
  {
    hide CuesIn, FixSteps, CatchUp;
    var n := |times|;
    if n == 0 {
    } else {
      var init := times[..n - 1];
      EditThenPlay(x, hole, p, init);
      var (p1, cues) := Ticks(x, p, init);
      var now := Seconds(times[n - 1] - p1.cycleStart);
      if Looping(x) {
        FixCatchUp(x, hole, p1.lastElapsed, now);
      } else {
        FixCuesIn(x.steps, hole, p1.lastElapsed, now);
      }
      FixTraceConcat(cues, Ticked(x, p1, times[n - 1]).1, hole);
    }
  }

  lemma {:induction false} FixedTraceValues<T>(all: seq<T>, hole: nat, trace: seq<nat>)
    requires hole < |all|
    ensures Values(Without(all, hole), FixTrace(trace, hole)) == Values(all, WithoutTriggers(trace, hole))
  {
    if |trace| == 0 {
    } else {
      FixedTraceValues(all, hole, trace[1..]);
      if trace[0] != hole {
        assert FixTrace(trace, hole)[1..] == FixTrace(trace[1..], hole);
        assert WithoutTriggers(trace, hole)[1..] == WithoutTriggers(trace[1..], hole);
      } else {
        assert WithoutTriggers(trace, hole) == WithoutTriggers(trace[1..], hole);
      }
      if trace[0] != hole && trace[0] < |all| {
        ShiftKeepsCue(all, hole, trace[0]);
      }
    }
  }

  /** Editing commutes with playback: after removing a cue, any run of ticks plays what it
      played before, cue for cue, less the removed cue. */
  lemma RemovalCommutesWithPlayback<F>(s: Show<F, real>, i: nat, p: Player, times: seq<int>)
    requires i < |s.cues|
    ensures var s' := WithoutCue(s, i);
            && Ticks(s'.timeline, p, times).0 == Ticks(s.timeline, p, times).0
            && Values(s'.cues, Ticks(s'.timeline, p, times).1)
            == Values(s.cues, WithoutTriggers(Ticks(s.timeline, p, times).1, i))
  {
    EditThenPlay(s.timeline, i, p, times);
    FixedTraceValues(s.cues, i, Ticks(s.timeline, p, times).1);
  }
}
