/** Reading inverts writing, for the current version and for the older layouts. */
module ShowRoundTrip {
  import opened Bytes
  import opened IldaFormat
  import opened IldaNorm
  import opened IldaRoundTrip
  import opened ShowTypes
  import opened ShowFormat

  function At(t: seq<Byte>): Cursor { Cursor(t, true) }

  lemma U8RoundTrip(b: Byte, t: seq<Byte>)
    ensures ReadU8(At([b] + t)) == (b, At(t))
  {}

  lemma U32RoundTrip(v: U32, t: seq<Byte>)
    ensures ReadU32(At(LE(v, 4) + t)) == (v, At(t))
  {
    WordSizes();
    LERoundTrip(v, 4);
    assert (LE(v, 4) + t)[..4] == LE(v, 4) && (LE(v, 4) + t)[4..] == t;
  }

  lemma U64RoundTrip(v: U64, t: seq<Byte>)
    ensures ReadU64(At(LE(v, 8) + t)) == (v, At(t))
  {
    WordSizes();
    LERoundTrip(v, 8);
    assert (LE(v, 8) + t)[..8] == LE(v, 8) && (LE(v, 8) + t)[8..] == t;
  }

  predicate Fits32(n: nat) { n < 0x1_0000_0000 }

  lemma BlobRoundTrip(s: seq<Byte>, t: seq<Byte>)
    requires Fits32(|s|)
    ensures ReadBlob(At(BlobBytes(s, t))) == (s, At(t))
  {
    hide ReadU32;
    U32RoundTrip(|s|, s + t);
    assert (s + t)[..|s|] == s && (s + t)[|s|..] == t;
  }

  /** A string or blob is read, and the reader has not failed, exactly when its length
      prefix and its bytes stand at the cursor and nothing failed before. */
  lemma BlobReadExactly(c: Cursor, s: seq<Byte>, t: seq<Byte>)
    ensures ReadBlob(c) == (s, At(t)) <==> Fits32(|s|) && c == At(BlobBytes(s, t))
  {
    if Fits32(|s|) && c == At(BlobBytes(s, t)) {
      BlobRoundTrip(s, t);
    }
    if ReadBlob(c) == (s, At(t)) {
      FromLERoundTrip(c.rest[..4]);
      var rest := c.rest[4..];
      assert rest[..|s|] == s && rest[|s|..] == t;
      assert c.rest == c.rest[..4] + (rest[..|s|] + rest[|s|..]);
    }
  }

  // ---- what each version keeps ---------------------------------------------

  function KeptEffect(version: nat, e: FileEffect): FileEffect {
    if version >= 5 then e else e.(syncToTempo := false)
  }

  function KeptEffects(version: nat, es: seq<FileEffect>): seq<FileEffect> {
    if |es| == 0 then [] else [KeptEffect(version, es[0])] + KeptEffects(version, es[1..])
  }

  function KeptEffectList(version: nat, es: seq<FileEffect>): seq<FileEffect> {
    if version >= 4 then KeptEffects(version, es) else []
  }

  function KeptCue(version: nat, c: FileCue): FileCue {
    c.(frames := NormShow(BeforeEof(c.frames)), effects := KeptEffectList(version, c.effects))
  }

  function KeptCues(version: nat, cs: seq<FileCue>): seq<FileCue> {
    if |cs| == 0 then [] else [KeptCue(version, cs[0])] + KeptCues(version, cs[1..])
  }

  function KeptTimeline(version: nat, x: FileTimeline): FileTimeline {
    if version >= 3 then x else NoTimeline()
  }

  /** The show as a file of the given version remembers it. */
  function Kept(version: nat, s: FileShow): FileShow {
    Show(s.name, KeptCues(version, s.cues), KeptTimeline(version, s.timeline))
  }

  predicate CueLengthsFit(c: FileCue) {
    Fits32(|c.name|) && Fits32(|IldaBytes(c.frames)|) && Fits32(|c.effects|)
  }

  predicate CueFits(c: FileCue) {
    CueLengthsFit(c) && CountsFit(c.frames)
  }

  predicate TimelineFits(x: FileTimeline) {
    && Fits32(|x.name|) && Fits32(|x.steps|)
    && forall i :: 0 <= i < |x.steps| ==> Fits32(x.steps[i].cueIndex)
  }

  /** Every length and index fits its 32-bit field; nothing is asked of the frames' point counts. */
  predicate LengthsFit(s: FileShow) {
    && Fits32(|s.name|) && Fits32(|s.cues|) && TimelineFits(s.timeline)
    && forall i :: 0 <= i < |s.cues| ==> CueLengthsFit(s.cues[i])
  }

  /** Every length, count and index fits the field it is stored in. */
  predicate Fits(s: FileShow) {
    && Fits32(|s.name|) && Fits32(|s.cues|) && TimelineFits(s.timeline)
    && forall i :: 0 <= i < |s.cues| ==> CueFits(s.cues[i])
  }

  // ---- round trips, record by record ---------------------------------------

  lemma EffectRoundTrip(version: nat, e: FileEffect, t: seq<Byte>)
    ensures ReadEffect(version, At(EffectBytes(version, e, t))) == (KeptEffect(version, e), At(t))
  {
    hide ReadU8, ReadU32, LE;
    var t9 := if version >= 5 then [Flag(e.syncToTempo)] + t else t;
    var t8 := [Flag(e.enabled)] + t9;
    var t7 := [e.b] + t8;
    var t6 := [e.g] + t7;
    var t5 := [e.r] + t6;
    var t4 := [e.axis] + t5;
    var t3 := LE(e.amount, 4) + t4;
    var t2 := LE(e.rateHz, 4) + t3;
    var t1 := [e.direction] + t2;
    U8RoundTrip(e.kind, t1);
    U8RoundTrip(e.direction, t2);
    U32RoundTrip(e.rateHz, t3);
    U32RoundTrip(e.amount, t4);
    U8RoundTrip(e.axis, t5);
    U8RoundTrip(e.r, t6);
    U8RoundTrip(e.g, t7);
    U8RoundTrip(e.b, t8);
    U8RoundTrip(Flag(e.enabled), t9);
    U8RoundTrip(Flag(e.syncToTempo), t);
  }

  lemma {:induction false} EffectsRoundTrip(version: nat, es: seq<FileEffect>, t: seq<Byte>)
    ensures ReadEffects(version, |es|, At(EffectsBytes(version, es, t))) == (KeptEffects(version, es), At(t))
  {
    hide ReadEffect, EffectBytes;
    if |es| == 0 {
    } else {
      EffectRoundTrip(version, es[0], EffectsBytes(version, es[1..], t));
      EffectsRoundTrip(version, es[1..], t);
    }
  }

  lemma EffectListRoundTrip(version: nat, es: seq<FileEffect>, t: seq<Byte>)
    requires Fits32(|es|)
    ensures ReadEffectList(version, At(EffectListBytes(version, es, t))) == (KeptEffectList(version, es), At(t))
  {
    hide ReadU32, ReadEffects, EffectsBytes, LE;
    U32RoundTrip(|es|, EffectsBytes(version, es, t));
    EffectsRoundTrip(version, es, t);
  }

  lemma TransformRoundTrip(x: Transform<U32>, t: seq<Byte>)
    ensures ReadTransform(At(TransformBytes(x, t))) == (x, At(t))
  {
    hide ReadU32, LE;
    var t4 := LE(x.brightness, 4) + t;
    var t3 := LE(x.rotationTurns, 4) + t4;
    var t2 := LE(x.scale, 4) + t3;
    var t1 := LE(x.offsetY, 4) + t2;
    U32RoundTrip(x.offsetX, t1);
    U32RoundTrip(x.offsetY, t2);
    U32RoundTrip(x.scale, t3);
    U32RoundTrip(x.rotationTurns, t4);
    U32RoundTrip(x.brightness, t);
  }

  /** Whatever the frames: a cue is read back with what its embedded stream reads as. */
  lemma CueReread(version: nat, c: FileCue, t: seq<Byte>)
    requires CueLengthsFit(c)
    ensures var p := ParseIlda(IldaBytes(c.frames));
            ReadCue(version, At(CueBytes(version, c, t))) ==
            if p.ok then CueRead(c.(frames := p.frames, effects := KeptEffectList(version, c.effects)), At(t))
            else CueBadFrames(p.error)
  {
    hide ReadU32, ReadBlob, ReadTransform, ReadEffectList, LE, BlobBytes, TransformBytes, EffectListBytes,
         IldaBytes, ParseIlda, KeptEffectList;
    var t6 := EffectListBytes(version, c.effects, t);
    var blob := IldaBytes(c.frames);
    var t5 := BlobBytes(blob, t6);
    var t4 := LE(c.spinTurnsPerSec, 4) + t5;
    var t3 := TransformBytes(c.transform, t4);
    var t2 := [Flag(c.loop)] + t3;
    var t1 := LE(c.framesPerSecond, 4) + t2;
    BlobRoundTrip(c.name, t1);
    U32RoundTrip(c.framesPerSecond, t2);
    U8RoundTrip(Flag(c.loop), t3);
    TransformRoundTrip(c.transform, t4);
    U32RoundTrip(c.spinTurnsPerSec, t5);
    BlobRoundTrip(blob, t6);
    EffectListRoundTrip(version, c.effects, t);
  }

  /** What reading makes of written cues, whatever follows them: each with what its embedded
      stream reads as, unless one of the streams is rejected. */
  datatype Reread = AllRead(cues: seq<FileCue>) | Rejected(error: IldaError)

  function RereadCues(version: nat, cs: seq<FileCue>): Reread {
    if |cs| == 0 then AllRead([])
    else
      var p := ParseIlda(IldaBytes(cs[0].frames));
      var cue := cs[0].(frames := p.frames, effects := KeptEffectList(version, cs[0].effects));
      var rest := RereadCues(version, cs[1..]);
      if !p.ok then Rejected(p.error) else if rest.Rejected? then rest else AllRead([cue] + rest.cues)
  }

  lemma {:induction false} CuesReread(version: nat, cs: seq<FileCue>, t: seq<Byte>)
    requires forall i :: 0 <= i < |cs| ==> CueLengthsFit(cs[i])
    ensures var r := RereadCues(version, cs);
            ReadCues(version, |cs|, At(CuesBytes(version, cs, t))) ==
            if r.AllRead? then CuesRead(r.cues, At(t)) else BadFrames(r.error)
  {
    hide ReadCue, CueBytes, CueLengthsFit, ParseIlda, IldaBytes, KeptEffectList;
    if |cs| == 0 {
    } else {
      CueReread(version, cs[0], CuesBytes(version, cs[1..], t));
      CuesReread(version, cs[1..], t);
    }
  }

  /** Whatever the frames: a written file of any readable version reads as what its embedded
      streams read as, and when it loads leaves exactly the bytes that follow it. */
  lemma ShowReread(version: nat, s: FileShow, t: seq<Byte>)
    requires 2 <= version <= 5 && LengthsFit(s)
    ensures var r := RereadCues(version, s.cues);
            ParseShow(ShowBytes(version, s, t)) ==
            if r.AllRead? then Outcome(Loaded(Show(s.name, r.cues, KeptTimeline(version, s.timeline))), t)
            else Outcome(BadEmbeddedFrames(r.error), [])
  {
    hide ReadU32, ReadBlob, ReadCues, ReadTimeline, LE, BlobBytes, CuesBytes, TimelineBytes, CueLengthsFit,
         TimelineFits, RereadCues;
    var t4 := TimelineBytes(version, s.timeline, t);
    var t3 := CuesBytes(version, s.cues, t4);
    var t2 := LE(|s.cues|, 4) + t3;
    var t1 := BlobBytes(s.name, t2);
    var d := ShowBytes(version, s, t);
    assert d[..4] == MAGIC && d[4..] == LE(version, 4) + t1;
    U32RoundTrip(version, t1);
    BlobRoundTrip(s.name, t2);
    U32RoundTrip(|s.cues|, t3);
    CuesReread(version, s.cues, t4);
    TimelineRoundTrip(version, s.timeline, t);
  }

  lemma CueRoundTrip(version: nat, c: FileCue, t: seq<Byte>)
    requires CueFits(c)
    ensures ReadCue(version, At(CueBytes(version, c, t))) == CueRead(KeptCue(version, c), At(t))
  {
    hide ReadCue, CueBytes, IldaBytes, ParseIlda, CountsFit, KeptEffectList;
    CueReread(version, c, t);
    WriteReadIlda(c.frames);
  }

  /** Frames whose point counts fit read as their normal forms. */
  lemma {:induction false} RereadKept(version: nat, cs: seq<FileCue>)
    requires forall i :: 0 <= i < |cs| ==> CountsFit(cs[i].frames)
    ensures RereadCues(version, cs) == AllRead(KeptCues(version, cs))
  {
    hide ParseIlda, IldaBytes, CountsFit, KeptEffectList;
    if |cs| == 0 {
    } else {
      WriteReadIlda(cs[0].frames);
      RereadKept(version, cs[1..]);
    }
  }

  lemma {:induction false} StepsRoundTrip(ss: seq<FileStep>, t: seq<Byte>)
    requires forall i :: 0 <= i < |ss| ==> Fits32(ss[i].cueIndex)
    ensures ReadSteps(|ss|, At(StepsBytes(ss, t))) == (ss, At(t))
  {
    hide ReadU32, ReadU64, LE;
    if |ss| == 0 {
    } else {
      var t2 := StepsBytes(ss[1..], t);
      var t1 := LE(ss[0].cueIndex, 4) + t2;
      U64RoundTrip(ss[0].timeSeconds, t1);
      U32RoundTrip(ss[0].cueIndex, t2);
      StepsRoundTrip(ss[1..], t);
      assert [TimelineStep(ss[0].timeSeconds, ss[0].cueIndex)] + ss[1..] == ss;
    }
  }

  lemma TimelineRoundTrip(version: nat, x: FileTimeline, t: seq<Byte>)
    requires TimelineFits(x)
    ensures ReadTimeline(version, At(TimelineBytes(version, x, t))) == (KeptTimeline(version, x), At(t))
  {
    hide ReadU32, ReadU64, ReadBlob, ReadSteps, LE, BlobBytes, StepsBytes;
    if version >= 3 {
      var t4 := StepsBytes(x.steps, t);
      var t3 := LE(|x.steps|, 4) + t4;
      var t2 := [Flag(x.loop)] + t3;
      var t1 := LE(x.durationSeconds, 8) + t2;
      BlobRoundTrip(x.name, t1);
      U64RoundTrip(x.durationSeconds, t2);
      U8RoundTrip(Flag(x.loop), t3);
      U32RoundTrip(|x.steps|, t4);
      StepsRoundTrip(x.steps, t);
    }
  }

  /** A file of any readable version, followed by any bytes, gives back exactly what that
      version keeps and leaves exactly the bytes that follow. */
  lemma WriteReadShow(version: nat, s: FileShow, t: seq<Byte>)
    requires 2 <= version <= 5 && Fits(s)
    ensures ParseShow(ShowBytes(version, s, t)) == Outcome(Loaded(Kept(version, s)), t)
  {
    hide ParseShow, ShowBytes, CountsFit, TimelineFits, IldaBytes, RereadCues;
    ShowReread(version, s, t);
    RereadKept(version, s.cues);
  }

  lemma {:induction false} KeptEffectsCurrent(es: seq<FileEffect>)
    ensures KeptEffects(VERSION, es) == es
  {
    if |es| == 0 {
    } else {
      KeptEffectsCurrent(es[1..]);
    }
  }

  /** The current version changes nothing but the frames: cue by cue, every other field,
      effect, step and bit pattern comes back as written. */
  lemma CurrentVersionKeepsAll(s: FileShow)
    ensures Kept(VERSION, s).name == s.name && Kept(VERSION, s).timeline == s.timeline
    ensures |Kept(VERSION, s).cues| == |s.cues|
    ensures forall i :: 0 <= i < |s.cues| ==>
      Kept(VERSION, s).cues[i] == s.cues[i].(frames := NormShow(BeforeEof(s.cues[i].frames)))
  {
    KeptCuesCurrent(s.cues);
  }

  lemma {:induction false} KeptCuesCurrent(cs: seq<FileCue>)
    ensures |KeptCues(VERSION, cs)| == |cs|
    ensures forall i :: 0 <= i < |cs| ==>
      KeptCues(VERSION, cs)[i] == cs[i].(frames := NormShow(BeforeEof(cs[i].frames)))
  {
    hide NormShow, BeforeEof;
    if |cs| == 0 {
    } else {
      KeptCuesCurrent(cs[1..]);
      KeptEffectsCurrent(cs[0].effects);
    }
  }
}
