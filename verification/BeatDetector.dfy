/** The sliding-window beat detector against one that recomputes everything from the input. */
module BeatDetector {

  datatype Config = Config(window: nat, sensitivity: real, minLevel: real, refractoryFrames: int)

  datatype Detector = Detector(history: seq<real>, sum: real, cooldown: int)

  function Window(c: Config): (w: nat)
    ensures w >= 1
  {
    if c.window == 0 then 1 else c.window
  }

  function Fresh(): Detector { Detector([], 0.0, 0) }

  /** An energy stands out from n inputs with the given sum. */
  predicate Exceeds(c: Config, n: nat, sum: real, energy: real) {
    n > 0 && energy > c.minLevel && energy > sum / n as real * c.sensitivity
  }

  lemma ExceedsAverage(c: Config, n: nat, sum: real, energy: real, average: real)
    requires n > 0 ==> average == sum / n as real
    ensures Exceeds(c, n, sum, energy) <==> n > 0 && energy > c.minLevel && energy > average * c.sensitivity
  {}

  /** One call of process: the new state and whether it reports a beat. */
  function Processed(c: Config, d: Detector, energy: real): (Detector, bool) {
    var beat := d.cooldown == 0 && Exceeds(c, |d.history|, d.sum, energy);
    var cooldown := if beat then c.refractoryFrames else if d.cooldown > 0 then d.cooldown - 1 else d.cooldown;
    var grown := d.history + [energy];
    if |grown| > Window(c) then (Detector(grown[1..], d.sum + energy - grown[0], cooldown), beat)
    else (Detector(grown, d.sum + energy, cooldown), beat)
  }

  lemma ProcessedFields(c: Config, d: Detector, energy: real)
    ensures var (d1, beat) := Processed(c, d, energy);
            var grown := d.history + [energy];
            && (beat <==> d.cooldown == 0 && Exceeds(c, |d.history|, d.sum, energy))
            && d1.cooldown == (if beat then c.refractoryFrames else if d.cooldown > 0 then d.cooldown - 1 else d.cooldown)
            && d1.history == (if |grown| > Window(c) then grown[1..] else grown)
            && d1.sum == d.sum + energy - if |grown| > Window(c) then grown[0] else 0.0
  {
    hide Exceeds, Window;
  }

  /** The states and reports of a whole run. */
  function Run(c: Config, es: seq<real>): (r: (Detector, seq<bool>))
    ensures |r.1| == |es|
  {
    if |es| == 0 then (Fresh(), [])
    else
      var (d, flags) := Run(c, es[..|es| - 1]);
      var (d1, beat) := Processed(c, d, es[|es| - 1]);
      (d1, flags + [beat])
  }

  /** The detector with the inputs it was given since it was fresh and what it reported. */
  class BeatDetector {
    const config: Config
    var history: seq<real>
    var sum: real
    var cooldown: int
    ghost var inputs: seq<real>
    ghost var reports: seq<bool>

    ghost function View(): Detector
      reads this
    {
      Detector(history, sum, cooldown)
    }

    /** The fields are what the run over the inputs so far leaves. */
    ghost predicate Valid()
      reads this
    {
      Run(config, inputs) == (View(), reports)
    }

    constructor (config: Config)
      ensures this.config == config && Valid() && inputs == []
    {
      this.config := config;
      history, sum, cooldown := [], 0.0, 0;
      inputs, reports := [], [];
    }

    /** Whether an energy is above the floor and the running average by the sensitivity. */
    method StandsOut(energy: real) returns (loud: bool)
      ensures loud == Exceeds(config, |history|, sum, energy)
      ensures loud <==>
        |history| > 0 && energy > config.minLevel && energy > sum / |history| as real * config.sensitivity
    {
      var average := if |history| == 0 then 0.0 else sum / |history| as real;
      loud := |history| > 0 && energy > config.minLevel && energy > average * config.sensitivity;
      ExceedsAverage(config, |history|, sum, energy, average);
    }

    /** Reports exactly a spike that no earlier report still silences. */
    method Process(energy: real) returns (beat: bool)
      requires Valid()
      modifies this
      ensures Valid() && inputs == old(inputs) + [energy] && reports == old(reports) + [beat]
      ensures beat <==>
        && Exceeds(config, |old(history)|, old(sum), energy)
        && forall j :: 0 <= j < |old(reports)| && old(reports)[j] ==>
             config.refractoryFrames >= 0 && |old(reports)| - j > config.refractoryFrames
      ensures history == LastInputs(inputs, config.window)
      ensures sum == Sum(history) && old(sum) == Sum(old(history))
    {
      hide Run, Sum, Exceeds, Window, Processed, LastInputs;
      ghost var before := View();
      var loud := StandsOut(energy);
      beat := false;
      if cooldown == 0 && loud {
        beat := true;
        cooldown := config.refractoryFrames;
      } else if cooldown > 0 {
        cooldown := cooldown - 1;
      }
      history := history + [energy];
      sum := sum + energy;
      if |history| > Window(config) {
        sum := sum - history[0];
        history := history[1..];
      }
      ProcessedFields(config, before, energy);
      assert View() == Processed(config, before, energy).0;
      NextReport(config, inputs, energy);
      inputs, reports := inputs + [energy], reports + [beat];
    }

    method Reset()
      modifies this
      ensures Valid() && inputs == [] && View() == Fresh()
    {
      history, sum, cooldown := [], 0.0, 0;
      inputs, reports := [], [];
    }
  }

  /** One more input: what the run becomes, and what the new report says. */
  lemma NextReport(c: Config, es: seq<real>, energy: real)
    ensures var (d, flags) := Run(c, es);
            var (d1, beat) := Processed(c, d, energy);
            var all := es + [energy];
            && Run(c, all) == (d1, flags + [beat])
            && d.sum == Sum(d.history)
            && (beat <==> Exceeds(c, |d.history|, d.sum, energy)
                          && forall j :: 0 <= j < |flags| && flags[j] ==>
                               c.refractoryFrames >= 0 && |flags| - j > c.refractoryFrames)
            && d1.history == LastInputs(all, c.window)
            && d1.sum == Sum(d1.history)
  {
    hide Processed, Sum, Detects, Run, Exceeds, LastInputs;
    var all, n := es + [energy], |es|;
    NextRun(c, es, energy);
    WindowHeld(c, es);
    WindowHeld(c, all);
    ReportFromWindow(c, all, n);
    assert all[..n] == es;
    assert forall j :: 0 <= j < n ==> Run(c, all).1[j] == Run(c, es).1[j];
  }

  lemma WindowHeld(c: Config, es: seq<real>)
    ensures Run(c, es).0.history == LastInputs(es, c.window) && Run(c, es).0.sum == Sum(Run(c, es).0.history)
  {
    hide Sum, CountdownMatches, LastInputs;
    RunTracks(c, es);
  }

  lemma NextRun(c: Config, es: seq<real>, energy: real)
    ensures var (d, flags) := Run(c, es);
            var (d1, beat) := Processed(c, d, energy);
            Run(c, es + [energy]) == (d1, flags + [beat])
  {
    hide Processed;
    assert (es + [energy])[..|es|] == es;
  }

  // ---- the reference -------------------------------------------------------

  function Sum(xs: seq<real>): real {
    if |xs| == 0 then 0.0 else Sum(xs[..|xs| - 1]) + xs[|xs| - 1]
  }

  /** As many of the last inputs as configured, at least one, all while there are fewer. */
  function LastInputs(es: seq<real>, window: nat): seq<real> {
    if |es| <= window || |es| <= 1 then es
    else if window == 0 then es[|es| - 1..] else es[|es| - window..]
  }

  function Mean(xs: seq<real>): real {
    if |xs| == 0 then 0.0 else Sum(xs) / |xs| as real
  }

  /** Input k stands out from the mean of the window before it. */
  predicate Spike(c: Config, es: seq<real>, k: nat)
    requires k < |es|
  {
    k > 0 && es[k] > c.minLevel && es[k] > Mean(LastInputs(es[..k], c.window)) * c.sensitivity
  }

  /** A beat at j still silences call k; with a negative setting it does so for ever. */
  predicate Silences(c: Config, j: nat, k: nat) {
    j < k && (c.refractoryFrames < 0 || k - j <= c.refractoryFrames)
  }

  /** Reports are exactly the spikes not silenced by an earlier report. */
  ghost predicate Detects(c: Config, es: seq<real>, flags: seq<bool>) {
    && |flags| == |es|
    && forall k :: 0 <= k < |es| ==>
         (flags[k] <==> Spike(c, es, k) && !exists j :: 0 <= j < k && flags[j] && Silences(c, j, k))
  }

  lemma {:induction false} SumSlide(xs: seq<real>)
    requires |xs| > 0
    ensures Sum(xs[1..]) == Sum(xs) - xs[0]
  {
    if |xs| == 1 {
    } else {
      SumSlide(xs[..|xs| - 1]);
      assert xs[1..][..|xs| - 2] == xs[..|xs| - 1][1..];
    }
  }

  /** How the countdown relates to the reports so far. */
  ghost predicate CountdownMatches(c: Config, cooldown: int, flags: seq<bool>) {
    var n := |flags|;
    && (cooldown == 0 <==> !exists j :: 0 <= j < n && flags[j] && Silences(c, j, n))
    && (cooldown > 0 ==>
          exists j :: 0 <= j < n && flags[j] && c.refractoryFrames - (n - 1 - j) == cooldown)
    && (forall j :: 0 <= j < n && flags[j] && c.refractoryFrames >= 0 ==> c.refractoryFrames - (n - 1 - j) <= cooldown)
    && (cooldown < 0 ==> c.refractoryFrames < 0)
    && (cooldown == 0 && c.refractoryFrames < 0 ==> forall j :: 0 <= j < n ==> !flags[j])
  }

  ghost predicate Tracks(c: Config, es: seq<real>) {
    var (d, flags) := Run(c, es);
    && d.history == LastInputs(es, c.window) && d.sum == Sum(d.history)
    && CountdownMatches(c, d.cooldown, flags)
  }

  lemma WindowStep(c: Config, es: seq<real>, d: Detector)
    requires |es| > 0
    requires d.history == LastInputs(es[..|es| - 1], c.window) && d.sum == Sum(d.history)
    ensures var d1 := Processed(c, d, es[|es| - 1]).0;
            d1.history == LastInputs(es, c.window) && d1.sum == Sum(d1.history)
  {
    hide Processed, Exceeds, Sum;
    var e := es[|es| - 1];
    var grown := d.history + [e];
    ProcessedFields(c, d, e);
    assert grown[..|grown| - 1] == d.history;
    assert Sum(grown) == d.sum + e by { SumSnoc(d.history, e); }
    SumSlide(grown);
  }

  lemma SumSnoc(xs: seq<real>, x: real)
    ensures Sum(xs + [x]) == Sum(xs) + x
  {
    assert (xs + [x])[..|xs|] == xs;
  }

  lemma CountdownStep(c: Config, cooldown: int, flags: seq<bool>, beat: bool)
    requires CountdownMatches(c, cooldown, flags) && (beat ==> cooldown == 0)
    ensures CountdownMatches(c, if beat then c.refractoryFrames else if cooldown > 0 then cooldown - 1 else cooldown,
                             flags + [beat])
  {
    var n := |flags|;
    var next := if beat then c.refractoryFrames else if cooldown > 0 then cooldown - 1 else cooldown;
    var g := flags + [beat];
    assert forall j :: 0 <= j < n ==> g[j] == flags[j];
    if beat {
      assert g[n];
    } else if cooldown > 0 {
      var j :| 0 <= j < n && flags[j] && c.refractoryFrames - (n - 1 - j) == cooldown;
      assert g[j];
    } else if cooldown < 0 {
      var j :| 0 <= j < n && flags[j] && Silences(c, j, n);
      assert g[j] && Silences(c, j, n + 1);
    }
  }

  lemma {:induction false} RunTracks(c: Config, es: seq<real>)
    ensures Tracks(c, es) && Detects(c, es, Run(c, es).1)
  {
    hide Sum, CountdownMatches, LastInputs, Processed, Detects;
    var n := |es|;
    if n == 0 {
      EmptyRun(c);
    } else {
      var init := es[..n - 1];
      RunTracks(c, init);
      var (d, flags) := Run(c, init);
      var (d1, beat) := Processed(c, d, es[n - 1]);
      WindowStep(c, es, d);
      ReportStep(c, es, d, flags);
      CooldownAfter(c, d, es[n - 1]);
      CountdownStep(c, d.cooldown, flags, beat);
      DetectsStep(c, es, flags, beat);
    }
  }

  lemma CooldownAfter(c: Config, d: Detector, energy: real)
    ensures var (d1, beat) := Processed(c, d, energy);
            d1.cooldown == if beat then c.refractoryFrames else if d.cooldown > 0 then d.cooldown - 1 else d.cooldown
  {}

  /** The next report is a spike that no earlier report silences. */
  lemma ReportStep(c: Config, es: seq<real>, d: Detector, flags: seq<bool>)
    requires |es| > 0 && |flags| == |es| - 1
    requires d.history == LastInputs(es[..|es| - 1], c.window) && d.sum == Sum(d.history)
    requires CountdownMatches(c, d.cooldown, flags)
    ensures Processed(c, d, es[|es| - 1]).1 <==>
            Spike(c, es, |es| - 1) && !exists j :: 0 <= j < |flags| && flags[j] && Silences(c, j, |flags|)
    ensures Processed(c, d, es[|es| - 1]).1 ==> d.cooldown == 0
  {}

  lemma DetectsStep(c: Config, es: seq<real>, flags: seq<bool>, beat: bool)
    requires |es| > 0 && Detects(c, es[..|es| - 1], flags)
    requires beat <==> Spike(c, es, |es| - 1) && !exists j :: 0 <= j < |flags| && flags[j] && Silences(c, j, |flags|)
    ensures Detects(c, es, flags + [beat])
  {
    hide Mean, LastInputs, Silences;
    var n, g := |es|, flags + [beat];
    forall k | 0 <= k < n
      ensures g[k] <==> Spike(c, es, k) && !exists j :: 0 <= j < k && g[j] && Silences(c, j, k)
    {
      assert forall j :: 0 <= j < k ==> g[j] == flags[j];
      assert k < n - 1 ==> es[..k] == es[..n - 1][..k];
    }
  }

  lemma EmptyRun(c: Config)
    ensures Tracks(c, []) && Detects(c, [], [])
  {}

  /** In every run the window is the last inputs, as many as were configured, one if none were,
      all while there are fewer; the running sum is exactly theirs, and the reports are those of
      the detector that recomputes the mean and looks back. */
  lemma SlidingRefinesReference(c: Config, es: seq<real>)
    ensures var (d, flags) := Run(c, es);
            && d.history == (if |es| <= c.window || |es| <= 1 then es
                             else if c.window == 0 then es[|es| - 1..] else es[|es| - c.window..])
            && d.sum == Sum(d.history)
            && Detects(c, es, flags)
  {
    hide Sum, CountdownMatches;
    RunTracks(c, es);
  }

  lemma SpikeExceeds(c: Config, es: seq<real>, k: nat)
    requires k < |es|
    ensures var recent := LastInputs(es[..k], c.window);
            Spike(c, es, k) <==> Exceeds(c, |recent|, Sum(recent), es[k])
  {
    hide Sum;
  }

  lemma ReportFromWindow(c: Config, es: seq<real>, k: nat)
    requires k < |es|
    ensures var w := LastInputs(es[..k], c.window);
            Run(c, es).1[k] <==>
            && Exceeds(c, |w|, Sum(w), es[k])
            && forall j :: 0 <= j < k && Run(c, es).1[j] ==>
                 c.refractoryFrames >= 0 && k - j > c.refractoryFrames
  {
    hide Run, Sum, CountdownMatches, Exceeds, Spike, LastInputs;
    RunTracks(c, es);
    var flags := Run(c, es).1;
    SpikeExceeds(c, es, k);
    assert flags[k] <==> Spike(c, es, k) && !exists j :: 0 <= j < k && flags[j] && Silences(c, j, k);
    assert forall j :: 0 <= j < k ==>
      (!Silences(c, j, k) <==> c.refractoryFrames >= 0 && k - j > c.refractoryFrames);
  }

  /** Report k, from the inputs alone: with es[a..k] the window before it, a beat is an input above
      the floor and above its mean by the sensitivity, at least the refractory period after
      every beat before it. */
  lemma ReportExactly(c: Config, es: seq<real>, a: nat, k: nat)
    requires a <= k < |es|
    requires if k <= c.window || k == 0 then a == 0 else if c.window == 0 then a == k - 1 else a == k - c.window
    ensures Run(c, es).1[k] <==>
            && a < k && es[k] > c.minLevel && es[k] > Sum(es[a..k]) / (k - a) as real * c.sensitivity
            && forall j :: 0 <= j < k && Run(c, es).1[j] ==>
                 c.refractoryFrames >= 0 && k - j > c.refractoryFrames
  {
    hide Run, Sum;
    ReportFromWindow(c, es, k);
    assert LastInputs(es[..k], c.window) == es[a..k];
  }

  /** Beats are at least refractoryFrames + 1 calls apart; a negative setting allows only one. */
  lemma BeatsApart(c: Config, es: seq<real>, i: nat, j: nat)
    requires i < j < |es| && Run(c, es).1[i] && Run(c, es).1[j]
    ensures c.refractoryFrames >= 0 && j - i >= c.refractoryFrames + 1
  {
    RunTracks(c, es);
    assert !Silences(c, i, j);
  }

  // ---- when a second beat is possible --------------------------------------

  ghost predicate BothReported(c: Config, es: seq<real>, i: nat, j: nat) {
    i < j < |es| && Run(c, es).1[i] && Run(c, es).1[j]
  }

  /** An energy that stands out from what came before. */
  function Loud(c: Config, es: seq<real>): real {
    var m := Mean(LastInputs(es, c.window)) * c.sensitivity;
    (if m > c.minLevel then m else c.minLevel) + 1.0
  }

  lemma LoudSpikes(c: Config, es: seq<real>, k: nat)
    requires 0 < k < |es| && es[k] == Loud(c, es[..k])
    ensures Spike(c, es, k)
  {
    hide Mean;
  }

  /** Two spikes with the refractory period between them are both reported. */
  lemma TwoBeats(c: Config) returns (es: seq<real>)
    requires c.refractoryFrames >= 0
    ensures BothReported(c, es, 1, c.refractoryFrames + 2)
  {
    hide Loud, Spike, Run, Tracks;
    var r := c.refractoryFrames;
    var start := [0.0] + [Loud(c, [0.0])];
    var quiet := start + seq(r, _ => 0.0);
    es := quiet + [Loud(c, quiet)];
    assert es[..1] == [0.0] && es[..r + 2] == quiet;
    LoudSpikes(c, es, 1);
    LoudSpikes(c, es, r + 2);
    RunTracks(c, es);
    var flags := Run(c, es).1;
    assert !flags[0] by { FirstNoSpike(c, es); }
    assert flags[1];
    forall k | 2 <= k < r + 2 ensures !flags[k] {
      assert flags[1] && Silences(c, 1, k);
    }
  }

  lemma FirstNoSpike(c: Config, es: seq<real>)
    requires |es| > 0
    ensures !Spike(c, es, 0)
  {}

  /** A detector can report a second beat exactly when its refractory setting is not negative. */
  lemma SecondBeatExactly(c: Config)
    ensures (exists es, i, j :: BothReported(c, es, i, j)) <==> c.refractoryFrames >= 0
  {
    if c.refractoryFrames >= 0 {
      var es := TwoBeats(c);
    }
    forall es, i, j | BothReported(c, es, i, j) ensures c.refractoryFrames >= 0 {
      BeatsApart(c, es, i, j);
    }
  }

  /** A negative setting at work: the second of two spikes goes unreported. */
  lemma NegativeSettingLosesSpike()
    ensures var c, es := Config(1, 1.0, 0.0, -1), [1.0, 2.0, 3.0];
            Spike(c, es, 1) && Spike(c, es, 2) && Run(c, es).1 == [false, true, false]
  {
    hide Run, Tracks;
    var c, es := Config(1, 1.0, 0.0, -1), [1.0, 2.0, 3.0];
    assert Mean([1.0]) == 1.0 by { SteadyMean([1.0], 1.0); }
    assert Mean([2.0]) == 2.0 by { SteadyMean([2.0], 2.0); }
    assert LastInputs(es[..1], 1) == [1.0] && LastInputs(es[..2], 1) == [2.0];
    RunTracks(c, es);
    var flags := Run(c, es).1;
    assert !flags[0] && flags[1];
    assert Silences(c, 1, 2);
  }

  // ---- steady input --------------------------------------------------------

  lemma {:induction false} SumConstant(xs: seq<real>, v: real)
    requires forall i :: 0 <= i < |xs| ==> xs[i] == v
    ensures Sum(xs) == |xs| as real * v
  {
    if |xs| == 0 {
    } else {
      SumConstant(xs[..|xs| - 1], v);
      assert (|xs| - 1) as real * v + v == |xs| as real * v;
    }
  }

  lemma SteadyMean(xs: seq<real>, v: real)
    requires |xs| > 0 && forall i :: 0 <= i < |xs| ==> xs[i] == v
    ensures Mean(xs) == v
  {
    hide Sum;
    SumConstant(xs, v);
    MeanOfProduct(|xs| as real, v);
  }

  lemma SteadyNoSpike(c: Config, es: seq<real>, v: real, k: nat)
    requires v >= 0.0 && c.sensitivity >= 1.0 && forall i :: 0 <= i < |es| ==> es[i] == v
    requires k < |es|
    ensures !Spike(c, es, k)
  {
    hide Mean;
    if k > 0 {
      SteadyMean(LastInputs(es[..k], c.window), v);
      ScaledUp(v, c.sensitivity);
    }
  }

  /** A steady nonnegative input never beats at a sensitivity of one or more. */
  lemma SteadyInputSilent(c: Config, es: seq<real>, v: real, k: nat)
    requires v >= 0.0 && c.sensitivity >= 1.0 && forall i :: 0 <= i < |es| ==> es[i] == v
    requires k < |es|
    ensures !Run(c, es).1[k]
  {
    hide Run, Tracks, Spike;
    RunTracks(c, es);
    SteadyNoSpike(c, es, v, k);
  }

  lemma MeanOfProduct(n: real, v: real)
    requires n > 0.0
    ensures (n * v) / n == v
  {}

  lemma ScaledUp(v: real, s: real)
    requires v >= 0.0 && s >= 1.0
    ensures v * s >= v
  {}
}
