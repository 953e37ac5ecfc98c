/** Exactly when the cues fired do not depend on when the sequencer was ticked, and exactly how
    far a timeline that does not loop plays. */
module SequencerExact {
  import opened Bits
  import opened Timeline
  import opened Sequencer

  /** Any two runs that start together and end at the same time fire the same cues. */
  ghost predicate TickIndependent(x: Line, start: int) {
    forall a, b :: SameEnd(start, a, b) ==> Ticks(x, Started(start), a).1 == Ticks(x, Started(start), b).1
  }

  predicate SameEnd(start: int, a: seq<int>, b: seq<int>) {
    && Nondecreasing(start, a) && Nondecreasing(start, b)
    && |a| > 0 && |b| > 0 && a[|a| - 1] == b[|b| - 1]
  }

  /** The cycle lasts a whole number of clock ticks. */
  predicate WholeCycle(x: Line) {
    Seconds(WholeTicks(x.durationSeconds)) == x.durationSeconds
  }

  // ---- where a run stands on the unrolled schedule -------------------------

  /** The cues of k cycles and of the next one up to r. */
  function Unrolled(x: Line, k: nat, r: real): seq<nat> {
    Repeat(Cycle(x), k) + UpTo(x, r)
  }

  lemma {:induction false} SpanIsProduct(k: nat, d: real)
    ensures Span(k, d) == k as real * d
  {
    if k == 0 {
    } else {
      SpanIsProduct(k - 1, d);
      assert (k - 1) as real * d + d == k as real * d;
    }
  }

  lemma SecondsLinear(k: nat, w: int, t: int, start: int)
    ensures Seconds(start + t - (start + Times(k, w))) == Seconds(t) - k as real * Seconds(w)
  {
    TimesIsProduct(k, w);
    assert (k * w) as real == k as real * w as real;
    ScaledQuotient(k as real, w as real, NS as real);
  }

  lemma ScaledQuotient(k: real, w: real, n: real)
    requires n > 0.0
    ensures (k * w) / n == k * (w / n)
  {
    var q := w / n;
    assert q * n == w;
    QuotientOfProduct(k * w, k * q, n);
  }

  /** A run that was ticked once, t after the start, stands at t. */
  lemma OneTickStands(x: Line, start: int, t: nat) returns (k: nat, r: real)
    requires Looping(x) && Sorted(x.steps)
    ensures Ticks(x, Started(start), [start + t])
         == (Player(true, start + Times(k, WholeTicks(x.durationSeconds)), r), Unrolled(x, k, r))
    ensures 0.0 <= r < x.durationSeconds && k as real * x.durationSeconds + r == Seconds(t)
  {
    hide CatchUp, WholeTicks, CuesIn, Sorted, Times;
    CatchUpShape(x, Before0(), Seconds(t));
    var c := CatchUp(x, Before0(), Seconds(t));
    k, r := c.wraps, c.elapsed;
    SpanIsProduct(k, x.durationSeconds);
    NothingDue(x.steps, Before0(), Before0());
    assert [start + t][..0] == [];
    assert Ticked(x, Started(start), start + t).1 == c.cues;
  }

  /** Ticked at t and once more at t', it stands ahead of t' by what the k wraps up to t have lost. */
  lemma TwoTicksStand(x: Line, start: int, t: nat, t': nat) returns (k: nat, r: real, k': nat, r': real)
    requires Looping(x) && Sorted(x.steps) && t <= t'
    ensures 0.0 <= r < x.durationSeconds && k as real * x.durationSeconds + r == Seconds(t)
    ensures Ticks(x, Started(start), [start + t, start + t']).1 == Unrolled(x, k', r')
    ensures 0.0 <= r' < x.durationSeconds
    ensures k' as real * x.durationSeconds + r' == Seconds(t') + k as real * Lost(x)
  {
    hide CatchUp, WholeTicks, CuesIn, Sorted, Times, Seconds, Unrolled, UpTo;
    k, r := OneTickStands(x, start, t);
    var w := WholeTicks(x.durationSeconds);
    var now := Seconds(start + t' - (start + Times(k, w)));
    k', r' := CatchUpStands(x, k, r, t, t', now) by { SecondsLinear(k, w, t', start); }
    var p := Player(true, start + Times(k, w), r);
    var c := CatchUp(x, r, now);
    assert [start + t, start + t'][..1] == [start + t];
    assert Ticked(x, p, start + t').1 == c.cues;
    assert Ticks(x, Started(start), [start + t, start + t']).1 == Unrolled(x, k, r) + c.cues;
  }

  lemma CatchUpStands(x: Line, k: nat, r: real, t: nat, t': nat, now: real) returns (k': nat, r': real)
    requires Looping(x) && Sorted(x.steps) && t <= t'
    requires 0.0 <= r < x.durationSeconds && k as real * x.durationSeconds + r == Seconds(t)
    requires now == Seconds(t') - k as real * Seconds(WholeTicks(x.durationSeconds))
    ensures Unrolled(x, k, r) + CatchUp(x, r, now).cues == Unrolled(x, k', r')
    ensures 0.0 <= r' < x.durationSeconds
    ensures k' as real * x.durationSeconds + r' == Seconds(t') + k as real * Lost(x)
  {
    hide CatchUp, WholeTicks, CuesIn, Sorted, Span, Seconds, Repeat, UpTo;
    var d, w := x.durationSeconds, WholeTicks(x.durationSeconds);
    SecondsFacts(t, t', 0);
    TicksFit(d);
    MulMono(k, Seconds(w), d);
    assert r <= now;
    CatchUpShape(x, r, now);
    var c := CatchUp(x, r, now);
    k', r' := k + c.wraps, c.elapsed;
    SpanIsProduct(c.wraps, d);
    SumOfCycles(k, c.wraps, d);
    RepeatAdd(Cycle(x), k, c.wraps);
    calc {
      Unrolled(x, k, r) + c.cues;
      Repeat(Cycle(x), k) + (UpTo(x, r) + c.cues);
      Repeat(Cycle(x), k) + (Repeat(Cycle(x), c.wraps) + UpTo(x, r'));
      Unrolled(x, k', r');
    }
  }

  lemma SumOfCycles(a: nat, b: nat, d: real)
    ensures (a + b) as real * d == a as real * d + b as real * d
  {}

  /** What the reference time falls behind at each wrap. */
  function Lost(x: Line): real { x.durationSeconds - Seconds(WholeTicks(x.durationSeconds)) }

  lemma MulMono(k: nat, a: real, b: real)
    requires a <= b
    ensures k as real * a <= k as real * b
    ensures k as real * (b - a) == k as real * b - k as real * a
  {}

  // ---- a step between two positions is one cue more ------------------------

  lemma {:induction false} SomeDue(ss: Steps, from: real, to: real)
    requires |ss| > 0 && Due(ss[0], from, to)
    ensures |CuesIn(ss, from, to)| > 0
  {}

  /** How many cues the unrolled schedule has fired at a position. */
  lemma {:induction false} UnrolledSize(x: Line, k: nat, r: real)
    ensures |Unrolled(x, k, r)| == k * |Cycle(x)| + |UpTo(x, r)|
  {
    if k == 0 {
    } else {
      UnrolledSize(x, k - 1, r);
      assert (k - 1) * |Cycle(x)| + |Cycle(x)| == k * |Cycle(x)|;
    }
  }

  /** What part of a cycle fires, around the first step's time. */
  lemma PartOfCycle(x: Line, r: real)
    requires Looping(x) && Sorted(x.steps) && AllWithin(x.steps, 0.0, x.durationSeconds) && |x.steps| > 0
    requires 0.0 <= r < x.durationSeconds
    ensures |UpTo(x, r)| <= |Cycle(x)|
    ensures r < x.steps[0].timeSeconds ==> |UpTo(x, r)| < |Cycle(x)|
    ensures x.steps[0].timeSeconds <= r ==> |UpTo(x, r)| > 0
  {
    hide CuesIn;
    var first := x.steps[0].timeSeconds;
    Join(x.steps, Before0(), r, x.durationSeconds);
    if first <= r {
      SomeDue(x.steps, Before0(), r);
    } else {
      SomeDue(x.steps, r, x.durationSeconds);
    }
  }

  /** Positions compare cycle by cycle. */
  lemma CycleOrder(a: nat, b: nat, d: real, u: real, v: real)
    requires d > 0.0 && 0.0 <= u && v <= d
    ensures a as real * d + u < b as real * d + v ==> a <= b
  {
    if a > b {
      var c := (a - b - 1) as real;
      assert a as real * d == b as real * d + d + c * d;
      assert c * d >= 0.0;
    }
  }

  /** If the first step falls in cycle j strictly after one position and not after
      another, more cues have been fired at the second. */
  lemma StepBetween(x: Line, k: nat, r: real, k': nat, r': real, j: nat)
    requires Looping(x) && Sorted(x.steps) && AllWithin(x.steps, 0.0, x.durationSeconds) && |x.steps| > 0
    requires 0.0 <= r < x.durationSeconds && 0.0 <= r' < x.durationSeconds
    requires var d, s := x.durationSeconds, x.steps[0].timeSeconds;
             k as real * d + r < j as real * d + s <= k' as real * d + r'
    ensures |Unrolled(x, k, r)| < |Unrolled(x, k', r')|
  {
    hide CuesIn, Sorted, Unrolled;
    var d, s, n := x.durationSeconds, x.steps[0].timeSeconds, |Cycle(x)|;
    CycleOrder(k, j, d, r, s);
    CycleOrder(j, k', d, s, d);
    UnrolledSize(x, k, r);
    UnrolledSize(x, k', r');
    PartOfCycle(x, r);
    PartOfCycle(x, r');
    if k == k' {
      Join(x.steps, Before0(), r, r');
      SomeDue(x.steps, r, r');
    } else {
      MulLt(k, k', n);
      if k < j {
        MulLt(k, j, n);
      }
      if j < k' {
        MulLt(j, k', n);
      }
    }
  }

  // ---- a tick that tells them apart ----------------------------------------

  /** The least j with j * delta + s beyond m. */
  lemma Crossing(s: real, delta: real, m: real) returns (j: nat)
    requires delta > 0.0 && s < m
    ensures j >= 1 && m < j as real * delta + s <= m + delta
  {
    var q := (m - s) / delta;
    assert q * delta == m - s;
    assert q >= 0.0;
    j := q.Floor + 1;
    var f := j as real - q;
    assert 0.0 < f <= 1.0;
    assert j as real * delta == q * delta + f * delta;
    assert 0.0 < f * delta <= delta;
  }

  /** A time at which the first step of cycle j has passed only for a run that has
      lost one wrap's worth. */
  lemma TellingTime(x: Line) returns (j: nat, t: nat)
    requires Looping(x) && |x.steps| > 0 && x.steps[0].timeSeconds >= 0.0 && Lost(x) > 0.0
    ensures t > WholeTicks(x.durationSeconds) >= 0
    ensures Seconds(t) < j as real * x.durationSeconds + x.steps[0].timeSeconds <= Seconds(t) + Lost(x)
  {
    hide WholeTicks;
    var d, w, s := x.durationSeconds, WholeTicks(x.durationSeconds), x.steps[0].timeSeconds;
    TicksFit(d);
    var m := (s * NS as real).Floor + 1;
    j := Crossing(s, Lost(x), Seconds(m));
    MulLe(1, j, w);
    t := j * w + m;
    SecondsOfSum(j, w, m);
    MulMono(j, Seconds(w), d);
  }

  /** With a cycle that is not whole ticks, a run of one tick and one of two disagree. */
  lemma FractionalCycleDiffers(x: Line, start: int) returns (a: seq<int>, b: seq<int>)
    requires Looping(x) && Sorted(x.steps) && AllWithin(x.steps, 0.0, x.durationSeconds)
    requires |x.steps| > 0 && !WholeCycle(x)
    ensures SameEnd(start, a, b)
    ensures |Ticks(x, Started(start), a).1| < |Ticks(x, Started(start), b).1|
  {
    hide CuesIn, Sorted, Ticks, Unrolled, Times, WholeTicks, Seconds;
    var w := WholeTicks(x.durationSeconds);
    TicksFit(x.durationSeconds);
    var j, t := TellingTime(x);
    a, b := [start + t], [start + (w + 1), start + t];
    var k, r := OneTickStands(x, start, t);
    var k1, r1, k2, r2 := TwoTicksStand(x, start, w + 1, t);
    NextTickWraps(x.durationSeconds, k1, r1);
    LostAtLeastOnce(k1, Lost(x));
    StepBetween(x, k, r, k2, r2, j);
  }

  lemma NextTickWraps(d: real, k: nat, r: real)
    requires d > 0.0 && r < d && k as real * d + r == Seconds(WholeTicks(d) + 1)
    ensures k >= 1
  {}

  lemma LostAtLeastOnce(k: nat, lost: real)
    requires k >= 1 && lost >= 0.0
    ensures k as real * lost >= lost
  {
    assert k as real * lost == lost + (k - 1) as real * lost;
  }

  lemma SecondsOfSum(j: nat, w: int, m: int)
    ensures Seconds(j * w + m) == j as real * Seconds(w) + Seconds(m)
  {
    assert (j * w) as real == j as real * w as real;
    ScaledQuotient(j as real, w as real, NS as real);
  }

  lemma {:induction false} RepeatNothing(k: nat)
    ensures Repeat([], k) == []
  {
    if k == 0 {
    } else {
      RepeatNothing(k - 1);
    }
  }

  /** The cues fired never depend on the tick times exactly when the timeline is empty or
      its cycle is a whole number of clock ticks. */
  lemma TickIndependentExactly(x: Line, start: int)
    requires Looping(x) && Sorted(x.steps) && AllWithin(x.steps, 0.0, x.durationSeconds)
    ensures TickIndependent(x, start) <==> x.steps == [] || WholeCycle(x)
  {
    hide Ticks, Repeat, Sorted, WholeTicks, Seconds, Nondecreasing;
    if WholeCycle(x) {
      forall a, b | SameEnd(start, a, b)
        ensures Ticks(x, Started(start), a).1 == Ticks(x, Started(start), b).1
      {
        TickIndependence(x, start, a, b);
      }
    } else if x.steps == [] {
      forall a | Nondecreasing(start, a) ensures Ticks(x, Started(start), a).1 == [] {
        UnrolledSchedule(x, start, a);
        RepeatNothing(Wraps(x, Started(start), a));
        assert AllCues(x.steps) == [];
      }
    } else {
      var a, b := FractionalCycleDiffers(x, start);
      assert SameEnd(start, a, b);
    }
  }

  // ---- what the schedule fires ---------------------------------------------

  /** Up to a moment of a cycle, exactly the steps at or before it have fired, in order. */
  lemma UpToIsPrefix(x: Line, elapsed: real, k: nat)
    requires AllWithin(x.steps, 0.0, x.durationSeconds) && k <= |x.steps|
    requires forall i :: 0 <= i < k ==> x.steps[i].timeSeconds <= elapsed
    requires forall i :: k <= i < |x.steps| ==> elapsed < x.steps[i].timeSeconds
    ensures UpTo(x, elapsed) == AllCues(x.steps[..k])
  {
    CuesInConcat(x.steps[..k], x.steps[k..], Before0(), elapsed);
    assert x.steps == x.steps[..k] + x.steps[k..];
    WholeStretch(x.steps[..k], Before0(), elapsed);
    NothingDueLater(x.steps[k..], Before0(), elapsed);
  }

  lemma {:induction false} CuesInConcat(a: Steps, b: Steps, from: real, to: real)
    ensures CuesIn(a + b, from, to) == CuesIn(a, from, to) + CuesIn(b, from, to)
  {
    if |a| == 0 {
      assert a + b == b;
    } else {
      assert (a + b)[1..] == a[1..] + b;
      CuesInConcat(a[1..], b, from, to);
    }
  }

  // ---- playing once --------------------------------------------------------

  /** A timeline that loops never stops by itself, whatever its duration. */
  lemma {:induction false} LoopNeverStops(x: Line, start: int, times: seq<int>)
    requires x.loop
    ensures Ticks(x, Started(start), times).0.playing
  {
    hide CuesIn, CatchUp;
    if |times| == 0 {
    } else {
      LoopNeverStops(x, start, times[..|times| - 1]);
    }
  }

  /** One that does not loop plays until the first tick at or past its duration, for every
      duration. */
  lemma {:induction false} PlaysUntilEnd(x: Line, start: int, times: seq<int>)
    requires !x.loop && Nondecreasing(start, times) && |times| > 0
    ensures var p := Ticks(x, Started(start), times).0;
            && p.cycleStart == start
            && (p.playing <==> Seconds(times[|times| - 1] - start) < x.durationSeconds)
            && (p.playing ==> p.lastElapsed == Seconds(times[|times| - 1] - start))
  {
    hide CuesIn, Seconds;
    var n := |times|;
    var init := times[..n - 1];
    if n > 1 {
      PlaysUntilEnd(x, start, init);
      SecondsFacts(times[n - 2], times[n - 1], start);
      assert init[|init| - 1] == times[n - 2];
    } else {
      assert Ticks(x, Started(start), init) == (Started(start), []);
    }
  }

  lemma {:induction false} StoppedStays(x: Line, start: int, times: seq<int>, k: nat)
    requires k < |times| && !Ticks(x, Started(start), times[..k + 1]).0.playing
    ensures Ticks(x, Started(start), times) == Ticks(x, Started(start), times[..k + 1])
    decreases |times|
  {
    hide CuesIn, CatchUp;
    if k + 1 == |times| {
      assert times[..k + 1] == times;
    } else {
      var init := times[..|times| - 1];
      assert init[..k + 1] == times[..k + 1];
      StoppedStays(x, start, init, k);
      var (p, cues) := Ticks(x, Started(start), init);
      assert cues + [] == cues;
    }
  }

  /** It stands where the first tick at or past the duration found it, having fired everything
      up to there: every step of a timeline whose steps lie within its duration, once. */
  lemma EndsAtFirstTickPast(x: Line, start: int, times: seq<int>, k: nat)
    requires !x.loop && Sorted(x.steps) && Nondecreasing(start, times) && k < |times|
    requires Seconds(times[k] - start) >= x.durationSeconds
    requires forall j :: 0 <= j < k ==> Seconds(times[j] - start) < x.durationSeconds
    ensures var (p, cues) := Ticks(x, Started(start), times);
            && !p.playing && p.lastElapsed == Seconds(times[k] - start)
            && cues == UpTo(x, Seconds(times[k] - start))
            && (AllWithin(x.steps, 0.0, x.durationSeconds) ==> cues == AllCues(x.steps))
  {
    hide CuesIn, Sorted, Seconds;
    var upTo := times[..k + 1];
    PlaysUntilEnd(x, start, upTo);
    FirstStop(x, start, upTo);
    StoppedStays(x, start, times, k);
    OnePass(x, start, upTo);
    if AllWithin(x.steps, 0.0, x.durationSeconds) {
      WholeStretch(x.steps, Before0(), Seconds(times[k] - start));
    }
  }

  /** The tick that ends it leaves it at that tick's time. */
  lemma FirstStop(x: Line, start: int, times: seq<int>)
    requires !x.loop && Nondecreasing(start, times) && |times| > 0
    requires forall j :: 0 <= j < |times| - 1 ==> Seconds(times[j] - start) < x.durationSeconds
    ensures Ticks(x, Started(start), times).0.lastElapsed == Seconds(times[|times| - 1] - start)
  {
    hide CuesIn, Seconds;
    var init := times[..|times| - 1];
    if |init| > 0 {
      PlaysUntilEnd(x, start, init);
    } else {
      assert Ticks(x, Started(start), init) == (Started(start), []);
    }
  }
}
