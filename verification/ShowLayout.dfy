/** The show file byte by byte: where each field stands and what the header allows. */
module ShowLayout {
  import opened Bytes
  import opened IldaFormat
  import opened IldaNorm
  import opened ShowTypes
  import opened ShowFormat
  import opened ShowRoundTrip

  // ---- the header ----------------------------------------------------------

  /** A four-byte word, low byte first. */
  lemma WordBytes(v: U32)
    ensures LE(v, 4) == [v % 256, v / 256 % 256, v / 65536 % 256, v / 16777216]
  {
    var v1 := v / 256;
    var v2 := v1 / 256;
    var v3 := v2 / 256;
    assert LE(v3, 1) == [v3 % 256] + LE(v3 / 256, 0) && LE(v3 / 256, 0) == [];
    assert LE(v2, 2) == [v2 % 256] + LE(v3, 1);
    assert LE(v1, 3) == [v1 % 256] + LE(v2, 2);
    assert LE(v, 4) == [v % 256] + LE(v1, 3);
  }

  lemma WordAt(d: seq<Byte>)
    requires |d| >= 4
    ensures var b0: int, b1: int, b2: int, b3: int := d[0], d[1], d[2], d[3];
            FromLE(d[..4]) == b0 + 256 * b1 + 65536 * b2 + 16777216 * b3
  {
    var s := d[..4];
    assert s[3..][1..] == [] && s[2..][1..] == s[3..] && s[1..][1..] == s[2..];
    assert FromLE(s) == s[0] + 256 * FromLE(s[1..]);
    assert FromLE(s[1..]) == s[1] + 256 * FromLE(s[2..]);
    assert FromLE(s[2..]) == s[2] + 256 * FromLE(s[3..]);
    assert FromLE(s[3..]) == s[3] + 256 * FromLE(s[3..][1..]) && FromLE(s[3..][1..]) == 0;
  }

  /** Only files that begin with the letters RFSH and a version from 2 to 5 are read further; what is
      wrong with the others is told apart. */
  lemma HeaderVerdict(d: seq<Byte>)
    ensures var magic := |d| >= 8 && d[0] == 82 && d[1] == 70 && d[2] == 83 && d[3] == 72;
            var known := |d| >= 8 && 2 <= d[4] <= 5 && d[5] == 0 && d[6] == 0 && d[7] == 0;
            && (!magic <==> ParseShow(d).result == BadMagic)
            && (magic && !known <==> ParseShow(d).result == UnsupportedVersion)
            && (ParseShow(d).result.Loaded? ==> magic && known)
  {
    hide ReadBlob, ReadCues, ReadTimeline, FromLE;
    if |d| >= 8 {
      var c := Cursor(d[4..], true);
      WordAt(d[4..]);
      assert d[..4] == [82, 70, 83, 72] <==> d[0] == 82 && d[1] == 70 && d[2] == 83 && d[3] == 72;
      assert ReadU32(c).0 == FromLE(d[4..][..4]);
    }
  }

  // ---- the records ---------------------------------------------------------

  /** A written file: the letters, the version as a word, the name and the number of cues. */
  lemma HeaderLayout(version: nat, s: FileShow, t: seq<Byte>)
    requires version < 256 && Fits32(|s.name|) && Fits32(|s.cues|)
    ensures var d, n := ShowBytes(version, s, t), |s.name|;
            && |d| >= 16 + n
            && d[..8] == [82, 70, 83, 72, version, 0, 0, 0]
            && FromLE(d[8..12]) == n && d[12..12 + n] == s.name && FromLE(d[12 + n..16 + n]) == |s.cues|
            && d[16 + n..] == CuesBytes(version, s.cues, TimelineBytes(version, s.timeline, t))
  {
    hide CuesBytes, TimelineBytes, LE, FromLE;
    var rest := CuesBytes(version, s.cues, TimelineBytes(version, s.timeline, t));
    WordBytes(version);
    BlobLayout(s.name, LE(|s.cues|, 4) + rest);
    WordSizes();
    LERoundTrip(|s.cues|, 4);
    var blob := BlobBytes(s.name, LE(|s.cues|, 4) + rest);
    var d := ShowBytes(version, s, t);
    assert LE(|s.cues|, 4) == (LE(|s.cues|, 4) + rest)[..4];
    assert d[12 + |s.name|..16 + |s.name|] == d[12 + |s.name|..][..4];
    assert d == MAGIC + (LE(version, 4) + blob) && d[8..] == blob;
    assert d[8..12] == blob[..4] && d[12..12 + |s.name|] == blob[4..4 + |s.name|];
    assert d[12 + |s.name|..] == blob[4 + |s.name|..] == LE(|s.cues|, 4) + rest;
  }

  /** A length word, then the bytes. */
  lemma BlobLayout(s: seq<Byte>, t: seq<Byte>)
    requires Fits32(|s|)
    ensures var d := BlobBytes(s, t);
            |d| == 4 + |s| + |t| && FromLE(d[..4]) == |s| && d[4..4 + |s|] == s && d[4 + |s|..] == t
  {
    hide LE, FromLE;
    WordSizes();
    LERoundTrip(|s|, 4);
    assert BlobBytes(s, t)[..4] == LE(|s|, 4);
  }

  /** An effect in the current version: sixteen bytes. */
  lemma EffectLayout(e: FileEffect, t: seq<Byte>)
    ensures var d := EffectBytes(5, e, t);
            && |d| == 16 + |t| && d[0] == e.kind && d[1] == e.direction
            && FromLE(d[2..6]) == e.rateHz && FromLE(d[6..10]) == e.amount
            && d[10] == e.axis && d[11] == e.r && d[12] == e.g && d[13] == e.b
            && d[14] == (if e.enabled then 1 else 0) && d[15] == (if e.syncToTempo then 1 else 0)
            && d[16..] == t
  {
    hide LE, FromLE;
    WordSizes();
    LERoundTrip(e.rateHz, 4);
    LERoundTrip(e.amount, 4);
    var d := EffectBytes(5, e, t);
    var tail := [e.axis, e.r, e.g, e.b, Flag(e.enabled), Flag(e.syncToTempo)] + t;
    assert d == [e.kind, e.direction] + LE(e.rateHz, 4) + LE(e.amount, 4) + tail;
    assert d[2..6] == LE(e.rateHz, 4) && d[6..10] == LE(e.amount, 4) && d[10..] == tail;
  }

  /** Version 4 has no tempo flag; before that there are no effects. */
  lemma OlderEffects(e: FileEffect, es: seq<FileEffect>, t: seq<Byte>)
    ensures EffectBytes(4, e, t) == EffectBytes(5, e, t)[..15] + t
    ensures EffectListBytes(3, es, t) == t && EffectListBytes(2, es, t) == t
  {
    hide LE;
  }

  /** A cue: the name, then 29 bytes of numbers and flags, then the frames and the effects. */
  lemma CueLayout(version: nat, c: FileCue, t: seq<Byte>)
    requires Fits32(|c.name|)
    ensures var d, n := CueBytes(version, c, t), |c.name|;
            && |d| >= 33 + n && FromLE(d[..4]) == n && d[4..4 + n] == c.name
            && var r := d[4 + n..];
               && FromLE(r[..4]) == c.framesPerSecond && r[4] == (if c.loop then 1 else 0)
               && FromLE(r[5..9]) == c.transform.offsetX && FromLE(r[9..13]) == c.transform.offsetY
               && FromLE(r[13..17]) == c.transform.scale && FromLE(r[17..21]) == c.transform.rotationTurns
               && FromLE(r[21..25]) == c.transform.brightness && FromLE(r[25..29]) == c.spinTurnsPerSec
               && r[29..] == BlobBytes(IldaBytes(c.frames), EffectListBytes(version, c.effects, t))
  {
    hide LE, FromLE, BlobBytes, IldaBytes, EffectListBytes;
    WordSizes();
    var x := c.transform;
    var blob := BlobBytes(IldaBytes(c.frames), EffectListBytes(version, c.effects, t));
    var r := LE(c.framesPerSecond, 4) + ([Flag(c.loop)] + TransformBytes(x, LE(c.spinTurnsPerSec, 4) + blob));
    BlobLayout(c.name, r);
    LERoundTrip(c.framesPerSecond, 4);
    LERoundTrip(x.offsetX, 4);
    LERoundTrip(x.offsetY, 4);
    LERoundTrip(x.scale, 4);
    LERoundTrip(x.rotationTurns, 4);
    LERoundTrip(x.brightness, 4);
    LERoundTrip(c.spinTurnsPerSec, 4);
    assert r == LE(c.framesPerSecond, 4) + [Flag(c.loop)] + LE(x.offsetX, 4) + LE(x.offsetY, 4) + LE(x.scale, 4)
             + LE(x.rotationTurns, 4) + LE(x.brightness, 4) + LE(c.spinTurnsPerSec, 4) + blob;
    assert r[..4] == LE(c.framesPerSecond, 4) && r[5..9] == LE(x.offsetX, 4) && r[9..13] == LE(x.offsetY, 4);
    assert r[13..17] == LE(x.scale, 4) && r[17..21] == LE(x.rotationTurns, 4) && r[21..25] == LE(x.brightness, 4);
    assert r[25..29] == LE(c.spinTurnsPerSec, 4) && r[29..] == blob;
  }

  /** The timeline block, from version 3 on: the name, 13 bytes, then twelve bytes a step. */
  lemma TimelineLayout(version: nat, x: FileTimeline, t: seq<Byte>)
    requires TimelineFits(x)
    ensures version < 3 ==> TimelineBytes(version, x, t) == t
    ensures version >= 3 ==>
      var d, n := TimelineBytes(version, x, t), |x.name|;
      && |d| >= 17 + n && FromLE(d[..4]) == n && d[4..4 + n] == x.name
      && var r := d[4 + n..];
         && FromLE(r[..8]) == x.durationSeconds && r[8] == (if x.loop then 1 else 0)
         && FromLE(r[9..13]) == |x.steps| && r[13..] == StepsBytes(x.steps, t)
  {
    hide LE, FromLE, BlobBytes, StepsBytes;
    WordSizes();
    if version >= 3 {
      var steps := StepsBytes(x.steps, t);
      var r := LE(x.durationSeconds, 8) + ([Flag(x.loop)] + (LE(|x.steps|, 4) + steps));
      BlobLayout(x.name, r);
      LERoundTrip(x.durationSeconds, 8);
      LERoundTrip(|x.steps|, 4);
      assert r == LE(x.durationSeconds, 8) + [Flag(x.loop)] + LE(|x.steps|, 4) + steps;
      assert r[..8] == LE(x.durationSeconds, 8) && r[9..13] == LE(|x.steps|, 4) && r[13..] == steps;
    }
  }

  /** Step i stands twelve bytes after step i - 1: its time, then its cue. */
  lemma {:induction false} StepLayout(ss: seq<FileStep>, t: seq<Byte>, i: nat)
    requires i < |ss| && forall k :: 0 <= k < |ss| ==> Fits32(ss[k].cueIndex)
    ensures var d := StepsBytes(ss, t);
            && |d| == 12 * |ss| + |t|
            && FromLE(d[12 * i..12 * i + 8]) == ss[i].timeSeconds
            && FromLE(d[12 * i + 8..12 * i + 12]) == ss[i].cueIndex
  {
    hide LE, FromLE;
    WordSizes();
    var d, rest := StepsBytes(ss, t), StepsBytes(ss[1..], t);
    LERoundTrip(ss[0].timeSeconds, 8);
    LERoundTrip(ss[0].cueIndex, 4);
    assert d == LE(ss[0].timeSeconds, 8) + LE(ss[0].cueIndex, 4) + rest;
    assert d[0..8] == LE(ss[0].timeSeconds, 8) && d[8..12] == LE(ss[0].cueIndex, 4);
    if i == 0 {
      if |ss| > 1 {
        StepLayout(ss[1..], t, 0);
      }
    } else {
      StepLayout(ss[1..], t, i - 1);
      var j := 12 * (i - 1);
      assert d[12 * i..12 * i + 8] == rest[j..j + 8] && d[12 * i + 8..12 * i + 12] == rest[j + 8..j + 12];
    }
  }

  // ---- what the older versions keep ----------------------------------------

  /** Version by version, what a file remembers of a show: tempo flags from version 5, effects from 4,
      the timeline from 3; the frames normalised, everything else as it was. */
  lemma VersionsKeep(version: nat, s: FileShow, i: nat)
    requires i < |s.cues|
    ensures var k := Kept(version, s);
            && k.name == s.name && |k.cues| == |s.cues|
            && k.timeline == (if version >= 3 then s.timeline else Timeline([], [], 0, false))
            && k.cues[i] == s.cues[i].(frames := NormShow(BeforeEof(s.cues[i].frames)), effects := k.cues[i].effects)
            && (version >= 5 ==> k.cues[i].effects == s.cues[i].effects)
            && (version == 4 ==>
                  && |k.cues[i].effects| == |s.cues[i].effects|
                  && forall j :: 0 <= j < |s.cues[i].effects| ==>
                       k.cues[i].effects[j] == s.cues[i].effects[j].(syncToTempo := false))
            && (version < 4 ==> k.cues[i].effects == [])
  {
    hide NormShow, BeforeEof, KeptEffects;
    KeptCueAt(version, s.cues, i);
    KeptEffectsAt(version, s.cues[i].effects);
  }

  lemma {:induction false} KeptCueAt(version: nat, cs: seq<FileCue>, i: nat)
    requires i < |cs|
    ensures |KeptCues(version, cs)| == |cs| && KeptCues(version, cs)[i] == KeptCue(version, cs[i])
  {
    hide KeptCue;
    if i == 0 {
      if |cs| > 1 {
        KeptCueAt(version, cs[1..], 0);
      }
    } else {
      KeptCueAt(version, cs[1..], i - 1);
    }
  }

  lemma {:induction false} KeptEffectsAt(version: nat, es: seq<FileEffect>)
    ensures |KeptEffects(version, es)| == |es|
    ensures version >= 5 ==> KeptEffects(version, es) == es
    ensures version < 5 ==>
      forall j :: 0 <= j < |es| ==> KeptEffects(version, es)[j] == es[j].(syncToTempo := false)
  {
    if |es| == 0 {
    } else {
      KeptEffectsAt(version, es[1..]);
    }
  }
}
