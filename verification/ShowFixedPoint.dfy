/** A show that was ever accepted is a fixed point of saving and loading. */
module ShowFixedPoint {
  import opened Bytes
  import opened IldaFormat
  import opened IldaNorm
  import opened ShowFormat
  import opened ShowRoundTrip

  /** The re-encoded frames still fit their 32-bit length field. */
  predicate BlobsFit(s: FileShow) {
    forall i :: 0 <= i < |s.cues| ==> Fits32(|IldaBytes(s.cues[i].frames)|)
  }

  /** What the reader guarantees of each cue it returns. */
  predicate Accepted(c: FileCue) {
    Fits32(|c.name|) && Fits32(|c.effects|) && AllCanonical(c.frames)
  }

  lemma {:induction false} EffectsBounded(version: nat, n: nat, c: Cursor)
    ensures |ReadEffects(version, n, c).0| <= n
  {
    hide ReadEffect;
    if n == 0 || !c.ok {
    } else {
      EffectsBounded(version, n - 1, ReadEffect(version, c).1);
    }
  }

  lemma CueAccepted(version: nat, c: Cursor)
    ensures ReadCue(version, c).CueRead? ==> Accepted(ReadCue(version, c).cue)
  {
    hide ReadU8, ReadU32, ReadTransform, ReadEffects;
    var c1 := ReadBlob(c).1;
    var c2 := ReadU32(c1).1;
    var c3 := ReadU8(c2).1;
    var c4 := ReadTransform(c3).1;
    var c5 := ReadU32(c4).1;
    var (blob, c6) := ReadBlob(c5);
    ReaderCanonical(blob, DEFAULT_PALETTE, false);
    if version >= 4 {
      var (n, c7) := ReadU32(c6);
      EffectsBounded(version, n, c7);
    }
  }

  lemma {:induction false} CuesAccepted(version: nat, n: nat, c: Cursor)
    requires ReadCues(version, n, c).CuesRead?
    ensures |ReadCues(version, n, c).cues| <= n
    ensures forall i :: 0 <= i < |ReadCues(version, n, c).cues| ==> Accepted(ReadCues(version, n, c).cues[i])
  {
    hide ReadCue, Accepted;
    if n == 0 || !c.ok || ReadCue(version, c).CueBroke? {
    } else {
      CueAccepted(version, c);
      CuesAccepted(version, n - 1, ReadCue(version, c).c);
    }
  }

  lemma {:induction false} StepsAccepted(n: nat, c: Cursor)
    ensures |ReadSteps(n, c).0| <= n
    ensures forall i :: 0 <= i < |ReadSteps(n, c).0| ==> Fits32(ReadSteps(n, c).0[i].cueIndex)
  {
    hide ReadU32, ReadU64;
    if n == 0 || !c.ok {
    } else {
      StepsAccepted(n - 1, ReadU32(ReadU64(c).1).1);
    }
  }

  lemma TimelineAccepted(version: nat, c: Cursor)
    ensures TimelineFits(ReadTimeline(version, c).0)
  {
    hide ReadU8, ReadU32, ReadU64, ReadSteps;
    if c.ok && version >= 3 {
      var c3 := ReadU8(ReadU64(ReadBlob(c).1).1).1;
      var (n, c4) := ReadU32(c3);
      StepsAccepted(n, c4);
    }
  }

  lemma ShowAccepted(d: seq<Byte>)
    ensures ParseShow(d).result.Loaded? ==>
            var s := ParseShow(d).result.show;
            && (forall i :: 0 <= i < |s.cues| ==> Accepted(s.cues[i]))
            && (BlobsFit(s) ==> Fits(s))
  {
    hide ReadU32, ReadCues, ReadTimeline, IldaBytes, AllCanonical, TimelineFits;
    if !ParseShow(d).result.Loaded? {
      return;
    }
    var s := ParseShow(d).result.show;
    var (version, c1) := ReadU32(Cursor(d[4..], true));
    var (n, c3) := ReadU32(ReadBlob(c1).1);
    CuesAccepted(version, n, c3);
    TimelineAccepted(version, ReadCues(version, n, c3).c);
    forall i | 0 <= i < |s.cues| && BlobsFit(s) ensures CueFits(s.cues[i]) {
      assert Accepted(s.cues[i]);
      CanonicalFixed(s.cues[i].frames);
    }
  }

  lemma {:induction false} AcceptedKept(cs: seq<FileCue>)
    requires forall i :: 0 <= i < |cs| ==> Accepted(cs[i])
    ensures KeptCues(VERSION, cs) == cs
  {
    if |cs| == 0 {
    } else {
      AcceptedKept(cs[1..]);
      assert Accepted(cs[0]);
      KeptEffectsCurrent(cs[0].effects);
      CanonicalFixed(cs[0].frames);
    }
  }

  /** Load any bytes of any readable version: saving and loading again changes nothing. */
  lemma LoadedIsFixedPoint(d: seq<Byte>)
    ensures ParseShow(d).result.Loaded? && BlobsFit(ParseShow(d).result.show) ==>
            var s := ParseShow(d).result.show;
            ParseShow(ShowBytes(VERSION, s, [])) == Outcome(Loaded(s), [])
  {
    hide ParseShow, ShowBytes, Fits;
    if !ParseShow(d).result.Loaded? || !BlobsFit(ParseShow(d).result.show) {
      return;
    }
    var s := ParseShow(d).result.show;
    ShowAccepted(d);
    WriteReadShow(VERSION, s, []);
    AcceptedKept(s.cues);
  }
}
