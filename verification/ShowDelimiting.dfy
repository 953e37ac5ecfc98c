/** The show format delimits itself: a successful read never depends on the bytes after
    the ones it consumed, so a file cut short anywhere is rejected. */
module ShowDelimiting {
  import opened Bytes
  import opened IldaFormat
  import opened ShowFormat
  import opened ShowRoundTrip

  /** The same cursor with more unread bytes at the end. */
  function Ext(c: Cursor, t: seq<Byte>): Cursor {
    c.(rest := c.rest + t)
  }

  lemma U8Ext(c: Cursor, t: seq<Byte>)
    requires ReadU8(c).1.ok
    ensures ReadU8(Ext(c, t)) == (ReadU8(c).0, Ext(ReadU8(c).1, t))
  {
    assert (c.rest + t)[1..] == c.rest[1..] + t;
  }

  lemma WordExt(c: Cursor, n: nat, t: seq<Byte>)
    requires ReadWord(c, n).1.ok
    ensures ReadWord(Ext(c, t), n) == (ReadWord(c, n).0, Ext(ReadWord(c, n).1, t))
  {
    assert (c.rest + t)[..n] == c.rest[..n] && (c.rest + t)[n..] == c.rest[n..] + t;
  }

  lemma U32Ext(c: Cursor, t: seq<Byte>)
    requires ReadU32(c).1.ok
    ensures ReadU32(Ext(c, t)) == (ReadU32(c).0, Ext(ReadU32(c).1, t))
  {
    WordExt(c, 4, t);
  }

  lemma U64Ext(c: Cursor, t: seq<Byte>)
    requires ReadU64(c).1.ok
    ensures ReadU64(Ext(c, t)) == (ReadU64(c).0, Ext(ReadU64(c).1, t))
  {
    WordExt(c, 8, t);
  }

  lemma BlobExt(c: Cursor, t: seq<Byte>)
    requires ReadBlob(c).1.ok
    ensures ReadBlob(Ext(c, t)) == (ReadBlob(c).0, Ext(ReadBlob(c).1, t))
  {
    hide ReadU32;
    var (n, c1) := ReadU32(c);
    U32Ext(c, t);
    assert (c1.rest + t)[..n] == c1.rest[..n] && (c1.rest + t)[n..] == c1.rest[n..] + t;
  }

  lemma EffectExt(version: nat, c: Cursor, t: seq<Byte>)
    requires ReadEffect(version, c).1.ok
    ensures ReadEffect(version, Ext(c, t)) == (ReadEffect(version, c).0, Ext(ReadEffect(version, c).1, t))
  {
    hide ReadU8, ReadU32, Ext;
    var c1 := ReadU8(c).1;
    var c2 := ReadU8(c1).1;
    var c3 := ReadU32(c2).1;
    var c4 := ReadU32(c3).1;
    var c5 := ReadU8(c4).1;
    var c6 := ReadU8(c5).1;
    var c7 := ReadU8(c6).1;
    var c8 := ReadU8(c7).1;
    var c9 := ReadU8(c8).1;
    if version >= 5 {
      U8Ext(c9, t);
    }
    U8Ext(c8, t);
    U8Ext(c7, t);
    U8Ext(c6, t);
    U8Ext(c5, t);
    U8Ext(c4, t);
    U32Ext(c3, t);
    U32Ext(c2, t);
    U8Ext(c1, t);
    U8Ext(c, t);
  }

  lemma {:induction false} EffectsExt(version: nat, n: nat, c: Cursor, t: seq<Byte>)
    requires ReadEffects(version, n, c).1.ok
    ensures ReadEffects(version, n, Ext(c, t)) == (ReadEffects(version, n, c).0, Ext(ReadEffects(version, n, c).1, t))
  {
    hide ReadEffect;
    if n == 0 {
    } else {
      var c1 := ReadEffect(version, c).1;
      EffectsExt(version, n - 1, c1, t);
      EffectExt(version, c, t);
    }
  }

  lemma EffectListExt(version: nat, c: Cursor, t: seq<Byte>)
    requires ReadEffectList(version, c).1.ok
    ensures ReadEffectList(version, Ext(c, t)) == (ReadEffectList(version, c).0, Ext(ReadEffectList(version, c).1, t))
  {
    hide ReadU32, ReadEffects;
    if version >= 4 {
      var (n, c1) := ReadU32(c);
      EffectsExt(version, n, c1, t);
      U32Ext(c, t);
    }
  }

  lemma TransformExt(c: Cursor, t: seq<Byte>)
    requires ReadTransform(c).1.ok
    ensures ReadTransform(Ext(c, t)) == (ReadTransform(c).0, Ext(ReadTransform(c).1, t))
  {
    hide ReadU32, Ext;
    var c1 := ReadU32(c).1;
    var c2 := ReadU32(c1).1;
    var c3 := ReadU32(c2).1;
    var c4 := ReadU32(c3).1;
    U32Ext(c4, t);
    U32Ext(c3, t);
    U32Ext(c2, t);
    U32Ext(c1, t);
    U32Ext(c, t);
  }

  lemma CueExt(version: nat, c: Cursor, t: seq<Byte>)
    ensures var r := ReadCue(version, c);
            r.CueRead? && r.c.ok ==> ReadCue(version, Ext(c, t)) == CueRead(r.cue, Ext(r.c, t))
  {
    hide ReadU8, ReadU32, ReadBlob, ReadTransform, ReadEffectList, ParseIlda;
    if !ReadCue(version, c).CueRead? || !ReadCue(version, c).c.ok {
      return;
    }
    var c1 := ReadBlob(c).1;
    var c2 := ReadU32(c1).1;
    var c3 := ReadU8(c2).1;
    var c4 := ReadTransform(c3).1;
    var c5 := ReadU32(c4).1;
    var c6 := ReadBlob(c5).1;
    EffectListExt(version, c6, t);
    BlobExt(c5, t);
    U32Ext(c4, t);
    TransformExt(c3, t);
    U8Ext(c2, t);
    U32Ext(c1, t);
    BlobExt(c, t);
  }

  lemma {:induction false} CuesExt(version: nat, n: nat, c: Cursor, t: seq<Byte>)
    ensures var r := ReadCues(version, n, c);
            r.CuesRead? && r.c.ok ==> ReadCues(version, n, Ext(c, t)) == CuesRead(r.cues, Ext(r.c, t))
  {
    hide ReadCue;
    if n == 0 || !c.ok || !ReadCue(version, c).CueRead? {
    } else {
      CuesExt(version, n - 1, ReadCue(version, c).c, t);
      CueExt(version, c, t);
    }
  }

  lemma {:induction false} StepsExt(n: nat, c: Cursor, t: seq<Byte>)
    requires ReadSteps(n, c).1.ok
    ensures ReadSteps(n, Ext(c, t)) == (ReadSteps(n, c).0, Ext(ReadSteps(n, c).1, t))
  {
    hide ReadU32, ReadU64;
    if n == 0 {
    } else {
      var c1 := ReadU64(c).1;
      var c2 := ReadU32(c1).1;
      StepsExt(n - 1, c2, t);
      U32Ext(c1, t);
      U64Ext(c, t);
    }
  }

  lemma TimelineExt(version: nat, c: Cursor, t: seq<Byte>)
    requires ReadTimeline(version, c).1.ok
    ensures ReadTimeline(version, Ext(c, t)) == (ReadTimeline(version, c).0, Ext(ReadTimeline(version, c).1, t))
  {
    hide ReadU32, ReadU64, ReadBlob, ReadSteps;
    if version >= 3 {
      var c1 := ReadBlob(c).1;
      var c2 := ReadU64(c1).1;
      var c3 := ReadU8(c2).1;
      var (n, c4) := ReadU32(c3);
      StepsExt(n, c4, t);
      U32Ext(c3, t);
      U8Ext(c2, t);
      U64Ext(c1, t);
      BlobExt(c, t);
    }
  }

  /** For any bytes at all: if they load, adding more bytes changes neither the show nor
      what was consumed. */
  lemma TrailingBytesIgnored(d: seq<Byte>, t: seq<Byte>)
    ensures ParseShow(d).result.Loaded? ==>
            ParseShow(d + t) == Outcome(ParseShow(d).result, ParseShow(d).rest + t)
  {
    hide ReadU32, ReadBlob, ReadCues, ReadTimeline;
    if !ParseShow(d).result.Loaded? {
      return;
    }
    var c := Cursor(d[4..], true);
    assert (d + t)[..4] == d[..4] && (d + t)[4..] == d[4..] + t;
    var (version, c1) := ReadU32(c);
    var c2 := ReadBlob(c1).1;
    var (n, c3) := ReadU32(c2);
    TimelineExt(version, ReadCues(version, n, c3).c, t);
    CuesExt(version, n, c3, t);
    U32Ext(c2, t);
    BlobExt(c1, t);
    U32Ext(c, t);
  }

  /** What a written file reads as does not depend on the bytes after it, even when an
      embedded stream is rejected. */
  lemma WrittenShowDelimited(version: nat, s: FileShow, t: seq<Byte>)
    requires 2 <= version <= 5 && LengthsFit(s)
    ensures var r, r0 := ParseShow(ShowBytes(version, s, t)), ParseShow(ShowBytes(version, s, []));
            && r.result == r0.result
            && (r.result.Loaded? ==> r.rest == t)
            && (!r.result.Loaded? ==> r.result.BadEmbeddedFrames?)
  {
    hide ParseShow, ShowBytes, LengthsFit, RereadCues;
    ShowReread(version, s, t);
    ShowReread(version, s, []);
  }

  /** Every strict prefix of a written show is rejected, whatever the version and the frames. */
  lemma StrictPrefixRejected(version: nat, s: FileShow, k: nat)
    requires 2 <= version <= 5 && LengthsFit(s)
    requires k < |ShowBytes(version, s, [])|
    ensures !ParseShow(ShowBytes(version, s, [])[..k]).result.Loaded?
  {
    hide ParseShow, ShowBytes, LengthsFit, RereadCues;
    var d := ShowBytes(version, s, []);
    ShowReread(version, s, []);
    assert d[..k] + d[k..] == d;
    if ParseShow(d[..k]).result.Loaded? {
      TrailingBytesIgnored(d[..k], d[k..]);
      assert false;
    }
  }
}
