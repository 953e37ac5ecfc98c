/** Which timeline steps fall due in a stretch of time. */
module Timeline {
  import opened ShowTypes

  type Step = TimelineStep<real>
  type Steps = seq<Step>

  predicate Due(step: Step, from: real, to: real) {
    from < step.timeSeconds <= to
  }

  /** The cue of a step, when due. */
  function CueIfDue(step: Step, from: real, to: real): seq<nat> {
    if Due(step, from, to) then [step.cueIndex] else []
  }

  /** Cue indices of the steps due in (from, to], in timeline order. */
  function CuesIn(ss: Steps, from: real, to: real): seq<nat> {
    if |ss| == 0 then []
    else CueIfDue(ss[0], from, to) + CuesIn(ss[1..], from, to)
  }

  function CuesOf(ss: Steps, indices: seq<nat>): (cues: seq<nat>)
    requires forall i :: i in indices ==> i < |ss|
    ensures |cues| == |indices|
  {
    seq<nat>(|indices|, k requires 0 <= k < |indices| => assert indices[k] in indices; ss[indices[k]].cueIndex)
  }

  predicate Sorted(ss: Steps) {
    forall i, j :: 0 <= i < j < |ss| ==> ss[i].timeSeconds <= ss[j].timeSeconds
  }

  /** Exactly the indices due, in increasing order. */
  method StepsInInterval(ss: Steps, from: real, to: real) returns (fired: seq<nat>)
    ensures forall i :: i in fired <==> 0 <= i < |ss| && Due(ss[i], from, to)
    ensures forall a, b :: 0 <= a < b < |fired| ==> fired[a] < fired[b]
    ensures CuesOf(ss, fired) == CuesIn(ss, from, to)
  {
    hide CuesOf, CuesIn;
    fired := [];
    assert CuesOf(ss, []) == [] by { CuesOfNone(ss); }
    if !(from < to) {
      NothingDue(ss, from, to);
      return;
    }
    var i := 0;
    while i < |ss|
      invariant 0 <= i <= |ss|
      invariant forall k :: k in fired <==> 0 <= k < i && Due(ss[k], from, to)
      invariant forall a, b :: 0 <= a < b < |fired| ==> fired[a] < fired[b]
      invariant CuesOf(ss, fired) + CuesIn(ss[i..], from, to) == CuesIn(ss, from, to)
    {
      CuesInStep(ss, i, from, to);
      if ss[i].timeSeconds > from && ss[i].timeSeconds <= to {
        CuesOfSnoc(ss, fired, i);
        assert forall a :: 0 <= a < |fired| ==> fired[a] in fired;
        fired := fired + [i];
      }
      i := i + 1;
    }
    NothingDueLater(ss[i..], from, to);
  }

  lemma CuesInStep(ss: Steps, i: nat, from: real, to: real)
    requires i < |ss|
    ensures CuesIn(ss[i..], from, to)
         == CueIfDue(ss[i], from, to) + CuesIn(ss[i + 1..], from, to)
  {
    assert ss[i..][1..] == ss[i + 1..];
  }

  lemma CuesOfNone(ss: Steps)
    ensures CuesOf(ss, []) == []
  {}

  lemma CuesOfSnoc(ss: Steps, indices: seq<nat>, i: nat)
    requires i < |ss| && forall k :: k in indices ==> k < |ss|
    ensures CuesOf(ss, indices + [i]) == CuesOf(ss, indices) + [ss[i].cueIndex]
  {}

  lemma {:induction false} NothingDue(ss: Steps, from: real, to: real)
    requires to <= from
    ensures CuesIn(ss, from, to) == []
  {
    if |ss| == 0 {
    } else {
      NothingDue(ss[1..], from, to);
    }
  }

  lemma {:induction false} NothingDueLater(ss: Steps, from: real, to: real)
    requires forall i :: 0 <= i < |ss| ==> to < ss[i].timeSeconds
    ensures CuesIn(ss, from, to) == []
  {
    if |ss| == 0 {
    } else {
      NothingDueLater(ss[1..], from, to);
    }
  }

  lemma SortedTail(ss: Steps)
    requires Sorted(ss) && |ss| > 0
    ensures Sorted(ss[1..]) && forall i :: 0 <= i < |ss| ==> ss[0].timeSeconds <= ss[i].timeSeconds
  {}

  lemma CuesInCons(ss: Steps, from: real, to: real)
    requires |ss| > 0
    ensures CuesIn(ss, from, to) == CueIfDue(ss[0], from, to) + CuesIn(ss[1..], from, to)
  {}

  lemma Regroup(h: seq<nat>, x: seq<nat>, h': seq<nat>, y: seq<nat>)
    requires h' == [] || (h == [] && x == [])
    ensures (h + x) + (h' + y) == (h + h') + (x + y)
  {}

  /** On a sorted timeline adjacent stretches join without loss, repetition or reordering. */
  lemma {:induction false} Join(ss: Steps, a: real, b: real, c: real)
    requires Sorted(ss) && a <= b <= c
    ensures CuesIn(ss, a, b) + CuesIn(ss, b, c) == CuesIn(ss, a, c)
  {
    if |ss| == 0 {
    } else {
      hide Sorted, CuesIn;
      SortedTail(ss);
      Join(ss[1..], a, b, c);
      CuesInCons(ss, a, b);
      CuesInCons(ss, b, c);
      CuesInCons(ss, a, c);
      if b < ss[0].timeSeconds {
        NothingDueLater(ss[1..], a, b);
      }
      Regroup(CueIfDue(ss[0], a, b), CuesIn(ss[1..], a, b), CueIfDue(ss[0], b, c), CuesIn(ss[1..], b, c));
    }
  }

  predicate AllWithin(ss: Steps, lo: real, hi: real) {
    forall i :: 0 <= i < |ss| ==> lo <= ss[i].timeSeconds <= hi
  }

  function AllCues(ss: Steps): (cues: seq<nat>) {
    seq(|ss|, i requires 0 <= i < |ss| => ss[i].cueIndex)
  }

  /** A stretch that covers every step fires every step. */
  lemma {:induction false} WholeStretch(ss: Steps, from: real, to: real)
    requires forall i :: 0 <= i < |ss| ==> Due(ss[i], from, to)
    ensures CuesIn(ss, from, to) == AllCues(ss)
  {
    if |ss| == 0 {
    } else {
      WholeStretch(ss[1..], from, to);
      assert AllCues(ss) == [ss[0].cueIndex] + AllCues(ss[1..]);
    }
  }

  predicate IsFinished(loop: bool, durationSeconds: real, elapsed: real) {
    !loop && elapsed >= durationSeconds
  }
}
