/** The show writer and reader as loops over an output buffer and an input cursor. */
module ShowFile {
  import opened Bytes
  import opened IldaFormat
  import IldaCodec
  import opened ShowTypes
  import opened ShowFormat

  // ---- writing -------------------------------------------------------------

  method WriteEffects(es: seq<FileEffect>, ghost t: seq<Byte>) returns (out: seq<Byte>)
    ensures out + t == LE(|es|, 4) + EffectsBytes(VERSION, es, t)
  {
    hide LE;
    out := LE(|es|, 4);
    var i := 0;
    while i < |es|
      invariant 0 <= i <= |es|
      invariant out + EffectsBytes(VERSION, es[i..], t) == LE(|es|, 4) + EffectsBytes(VERSION, es, t)
    {
      assert es[i..][1..] == es[i + 1..];
      out := WriteEffect(out, es[i], EffectsBytes(VERSION, es[i + 1..], t));
      i := i + 1;
    }
  }

  method WriteEffect(before: seq<Byte>, e: FileEffect, ghost t: seq<Byte>) returns (out: seq<Byte>)
    ensures out + t == before + EffectBytes(VERSION, e, t)
  {
    hide LE;
    ghost var t9 := [Flag(e.syncToTempo)] + t;
    ghost var t8 := [Flag(e.enabled)] + t9;
    ghost var t7 := [e.b] + t8;
    ghost var t6 := [e.g] + t7;
    ghost var t5 := [e.r] + t6;
    ghost var t4 := [e.axis] + t5;
    ghost var t3 := LE(e.amount, 4) + t4;
    ghost var t2 := LE(e.rateHz, 4) + t3;
    ghost var t1 := [e.direction] + t2;
    ghost var goal := before + EffectBytes(VERSION, e, t);
    out := before + [e.kind];
    assert out + t1 == goal;
    out := out + [e.direction];
    assert out + t2 == goal;
    out := out + LE(e.rateHz, 4);
    assert out + t3 == goal;
    out := out + LE(e.amount, 4);
    assert out + t4 == goal;
    out := out + [e.axis];
    assert out + t5 == goal;
    out := out + [e.r];
    assert out + t6 == goal;
    out := out + [e.g];
    assert out + t7 == goal;
    out := out + [e.b];
    assert out + t8 == goal;
    out := out + [Flag(e.enabled)];
    assert out + t9 == goal;
    out := out + [Flag(e.syncToTempo)];
  }

  method WriteTransform(before: seq<Byte>, x: Transform<U32>, ghost t: seq<Byte>) returns (out: seq<Byte>)
    ensures out + t == before + TransformBytes(x, t)
  {
    hide LE;
    ghost var t4 := LE(x.brightness, 4) + t;
    ghost var t3 := LE(x.rotationTurns, 4) + t4;
    ghost var t2 := LE(x.scale, 4) + t3;
    ghost var t1 := LE(x.offsetY, 4) + t2;
    ghost var goal := before + TransformBytes(x, t);
    out := before + LE(x.offsetX, 4);
    assert out + t1 == goal;
    out := out + LE(x.offsetY, 4);
    assert out + t2 == goal;
    out := out + LE(x.scale, 4);
    assert out + t3 == goal;
    out := out + LE(x.rotationTurns, 4);
    assert out + t4 == goal;
    out := out + LE(x.brightness, 4);
  }

  /** A string or a blob: its length and its bytes. */
  method WriteBlob(before: seq<Byte>, s: seq<Byte>, ghost t: seq<Byte>) returns (out: seq<Byte>)
    ensures out + t == before + BlobBytes(s, t)
  {
    hide LE;
    out := before + LE(|s|, 4);
    assert out + (s + t) == before + BlobBytes(s, t);
    out := out + s;
  }

  method WriteCue(before: seq<Byte>, c: FileCue, ghost t: seq<Byte>) returns (out: seq<Byte>)
    ensures out + t == before + CueBytes(VERSION, c, t)
  {
    hide LE, BlobBytes, TransformBytes, IldaBytes, EffectsBytes;
    ghost var t6 := EffectListBytes(VERSION, c.effects, t);
    ghost var t5 := BlobBytes(IldaBytes(c.frames), t6);
    ghost var t4 := LE(c.spinTurnsPerSec, 4) + t5;
    ghost var t3 := TransformBytes(c.transform, t4);
    ghost var t2 := [Flag(c.loop)] + t3;
    ghost var t1 := LE(c.framesPerSecond, 4) + t2;
    ghost var goal := before + CueBytes(VERSION, c, t);
    out := WriteBlob(before, c.name, t1);
    out := out + LE(c.framesPerSecond, 4);
    assert out + t2 == goal;
    out := out + [Flag(c.loop)];
    assert out + t3 == goal;
    out := WriteTransform(out, c.transform, t4);
    out := out + LE(c.spinTurnsPerSec, 4);
    assert out + t5 == goal;
    var blob := IldaCodec.WriteIlda(c.frames);
    out := WriteBlob(out, blob, t6);
    var effects := WriteEffects(c.effects, t);
    out := out + effects;
  }

  method WriteTimeline(before: seq<Byte>, x: FileTimeline) returns (out: seq<Byte>)
    ensures out == before + TimelineBytes(VERSION, x, [])
  {
    hide LE, BlobBytes;
    ghost var t3 := LE(|x.steps|, 4) + StepsBytes(x.steps, []);
    ghost var t2 := [Flag(x.loop)] + t3;
    ghost var t1 := LE(x.durationSeconds, 8) + t2;
    ghost var goal := before + TimelineBytes(VERSION, x, []);
    out := WriteBlob(before, x.name, t1);
    out := out + LE(x.durationSeconds, 8);
    assert out + t2 == goal;
    out := out + [Flag(x.loop)];
    assert out + t3 == goal;
    out := out + LE(|x.steps|, 4);
    assert x.steps[0..] == x.steps;
    var i := 0;
    while i < |x.steps|
      invariant 0 <= i <= |x.steps|
      invariant out + StepsBytes(x.steps[i..], []) == goal
    {
      assert x.steps[i..][1..] == x.steps[i + 1..];
      ghost var t5 := StepsBytes(x.steps[i + 1..], []);
      ghost var t4 := LE(x.steps[i].cueIndex, 4) + t5;
      out := out + LE(x.steps[i].timeSeconds, 8);
      assert out + t4 == goal;
      out := out + LE(x.steps[i].cueIndex, 4);
      assert out + t5 == goal;
      i := i + 1;
    }
  }

  method WriteShow(show: FileShow) returns (out: seq<Byte>)
    ensures out == ShowBytes(VERSION, show, [])
  {
    hide LE, BlobBytes, CueBytes, TimelineBytes;
    ghost var t4 := TimelineBytes(VERSION, show.timeline, []);
    ghost var t3 := CuesBytes(VERSION, show.cues, t4);
    ghost var t2 := LE(|show.cues|, 4) + t3;
    ghost var t1 := BlobBytes(show.name, t2);
    ghost var goal := ShowBytes(VERSION, show, []);
    out := MAGIC;
    out := out + LE(VERSION, 4);
    assert out + t1 == goal;
    out := WriteBlob(out, show.name, t2);
    out := out + LE(|show.cues|, 4);
    assert out + t3 == goal;
    assert show.cues[0..] == show.cues;
    var i := 0;
    while i < |show.cues|
      invariant 0 <= i <= |show.cues|
      invariant out + CuesBytes(VERSION, show.cues[i..], t4) == goal
    {
      assert show.cues[i..][1..] == show.cues[i + 1..];
      out := WriteCue(out, show.cues[i], CuesBytes(VERSION, show.cues[i + 1..], t4));
      i := i + 1;
    }
    out := WriteTimeline(out, show.timeline);
  }

  // ---- reading -------------------------------------------------------------

  /** How one pass of the cue loop ends for the caller; the cursor is the reader itself. */
  datatype CueStep = Pushed(cue: FileCue) | Broke | BadBlob(error: IldaError)

  ghost predicate Realises(r: CueStep, o: CueOutcome, c: Cursor) {
    match o
    case CueRead(cue, c1) => r == Pushed(cue) && c == c1
    case CueBroke(c1) => r == Broke && c == c1
    case CueBadFrames(e) => r == BadBlob(e)
  }

  /** The reading cursor over a byte buffer, with its sticky success flag. */
  class Reader {
    const data: seq<Byte>
    var pos: nat
    var ok: bool

    ghost predicate Valid()
      reads this
    {
      pos <= |data|
    }

    ghost function View(): Cursor
      requires Valid()
      reads this
    {
      Cursor(data[pos..], ok)
    }

    constructor (data: seq<Byte>, pos: nat)
      requires pos <= |data|
      ensures Valid() && View() == Cursor(data[pos..], true)
    {
      this.data := data;
      this.pos := pos;
      ok := true;
    }

    function Remaining(): (n: nat)
      requires Valid()
      reads this
      ensures n == |View().rest|
    {
      |data| - pos
    }

    method U8() returns (v: Byte)
      requires Valid()
      modifies this
      ensures Valid() && (v, View()) == ReadU8(old(View()))
    {
      if Remaining() < 1 {
        ok := false;
        return 0;
      }
      v := data[pos];
      pos := pos + 1;
    }

    method U32() returns (v: U32)
      requires Valid()
      modifies this
      ensures Valid() && (v, View()) == ReadU32(old(View()))
    {
      if Remaining() < 4 {
        ok := false;
        return 0;
      }
      assert data[pos..][..4] == data[pos..pos + 4];
      WordSizes();
      v := FromLE(data[pos..pos + 4]);
      pos := pos + 4;
    }

    method U64() returns (v: U64)
      requires Valid()
      modifies this
      ensures Valid() && (v, View()) == ReadU64(old(View()))
    {
      if Remaining() < 8 {
        ok := false;
        return 0;
      }
      assert data[pos..][..8] == data[pos..pos + 8];
      WordSizes();
      v := FromLE(data[pos..pos + 8]);
      pos := pos + 8;
    }

    method Blob() returns (s: seq<Byte>)
      requires Valid()
      modifies this
      ensures Valid() && (s, View()) == ReadBlob(old(View()))
    {
      hide ReadU32;
      var n := U32();
      if !ok || Remaining() < n {
        ok := false;
        return [];
      }
      s := data[pos..pos + n];
      assert data[pos..][..n] == s && data[pos..][n..] == data[pos + n..];
      pos := pos + n;
    }

    method Effect(version: nat) returns (e: FileEffect)
      requires Valid()
      modifies this
      ensures Valid() && (e, View()) == ReadEffect(version, old(View()))
    {
      hide ReadU8, ReadU32, View;
      var kind := U8();
      var direction := U8();
      var rateHz := U32();
      var amount := U32();
      var axis := U8();
      var red := U8();
      var green := U8();
      var blue := U8();
      var enabled := U8();
      var sync := 0;
      if version >= 5 {
        sync := U8();
      }
      e := ShowTypes.Effect(kind, direction, rateHz, amount, axis, red, green, blue, enabled != 0, sync != 0);
    }

    method EffectList(version: nat) returns (es: seq<FileEffect>)
      requires Valid()
      modifies this
      ensures Valid() && (es, View()) == ReadEffectList(version, old(View()))
    {
      hide ReadU32, ReadEffect;
      es := [];
      if version >= 4 {
        var n := U32();
        ghost var goal := ReadEffects(version, n, View());
        var i := 0;
        while i < n && ok
          invariant 0 <= i <= n && Valid()
          invariant es + ReadEffects(version, n - i, View()).0 == goal.0
          invariant ReadEffects(version, n - i, View()).1 == goal.1
        {
          ghost var rest := ReadEffects(version, n - i, View()).0;
          var e := Effect(version);
          es := es + [e];
          i := i + 1;
          assert rest == [e] + ReadEffects(version, n - i, View()).0;
        }
        assert es + [] == es;
        assert (es, View()) == goal;
      }
    }

    method Transform() returns (x: Transform<U32>)
      requires Valid()
      modifies this
      ensures Valid() && (x, View()) == ReadTransform(old(View()))
    {
      hide ReadU32, View;
      var offsetX := U32();
      var offsetY := U32();
      var scale := U32();
      var rotation := U32();
      var brightness := U32();
      x := ShowTypes.Transform(offsetX, offsetY, scale, rotation, brightness);
    }

    /** One pass of the cue loop. */
    method Cue(version: nat) returns (r: CueStep)
      requires Valid()
      modifies this
      ensures Valid() && Realises(r, ReadCue(version, old(View())), View())
    {
      hide ReadU8, ReadU32, ReadBlob, ReadTransform, ReadEffectList, ParseIlda;
      var name := Blob();
      var fps := U32();
      if Remaining() < 1 {
        ok := false;
        return Broke;
      }
      var loop := U8();
      var transform := Transform();
      var spin := U32();
      var blob := Blob();
      if !ok {
        return Broke;
      }
      var frames := IldaCodec.ReadIlda(blob);
      if !frames.ok {
        return BadBlob(frames.error);
      }
      var effects := EffectList(version);
      r := Pushed(ShowTypes.Cue(name, frames.frames, fps, loop != 0, transform, spin, effects));
    }

    method TimelineBlock(version: nat) returns (x: FileTimeline)
      requires Valid()
      modifies this
      ensures Valid() && (x, View()) == ReadTimeline(version, old(View()))
    {
      hide ReadU32, ReadU64, ReadBlob;
      x := NoTimeline();
      if ok && version >= 3 {
        var name := Blob();
        var duration := U64();
        if Remaining() < 1 {
          ok := false;
          return Timeline(name, [], duration, false);
        }
        var loop := U8();
        var n := U32();
        ghost var goal := ReadSteps(n, View());
        var steps: seq<FileStep> := [];
        var i := 0;
        while i < n && ok
          invariant 0 <= i <= n && Valid()
          invariant steps + ReadSteps(n - i, View()).0 == goal.0
          invariant ReadSteps(n - i, View()).1 == goal.1
        {
          ghost var rest := ReadSteps(n - i, View()).0;
          var time := U64();
          var index := U32();
          steps := steps + [TimelineStep(time, index)];
          i := i + 1;
          assert rest == [TimelineStep(time, index)] + ReadSteps(n - i, View()).0;
        }
        assert steps + [] == steps;
        assert (steps, View()) == goal;
        x := Timeline(name, steps, duration, loop != 0);
      }
    }
  }

  function Prepended(cues: seq<FileCue>, r: CuesOutcome): CuesOutcome {
    if r.CuesRead? then r.(cues := cues + r.cues) else r
  }

  method ReadShow(bytes: seq<Byte>) returns (result: ShowResult)
    ensures result == ParseShow(bytes).result
  {
    hide ReadU32, ReadBlob, ReadTimeline, ReadCue;
    if |bytes| < 8 || bytes[..4] != MAGIC {
      return BadMagic;
    }
    var r := new Reader(bytes, 4);
    var version := r.U32();
    if version < MIN_READABLE_VERSION || version > VERSION {
      return UnsupportedVersion;
    }
    var name := r.Blob();
    var n := r.U32();
    ghost var goal := ReadCues(version, n, r.View());
    var cues: seq<FileCue> := [];
    var i := 0;
    var broke := false;
    while i < n && r.ok && !broke
      invariant 0 <= i <= n && r.Valid() && fresh(r) && (broke ==> !r.ok)
      invariant Prepended(cues, ReadCues(version, n - i, r.View())) == goal
      decreases n - i, !broke
    {
      ghost var rest := ReadCues(version, n - i, r.View());
      var cue := r.Cue(version);
      match cue {
        case Broke =>
          broke := true;
        case BadBlob(e) =>
          return BadEmbeddedFrames(e);
        case Pushed(one) =>
          i := i + 1;
          cues := cues + [one];
          assert rest == Prepended([one], ReadCues(version, n - i, r.View()));
      }
    }
    assert Prepended(cues, CuesRead([], r.View())) == goal;
    var timeline := r.TimelineBlock(version);
    result := if r.ok then Loaded(Show(name, cues, timeline)) else Truncated;
  }
}
