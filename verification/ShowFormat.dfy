/** The byte layout of show files, versions 2 to 5, as bytes followed by a tail and as
    reads from a cursor. */
module ShowFormat {
  import opened Bytes
  import opened IldaFormat
  import opened ShowTypes

  type FileEffect = Effect<U32>
  type FileCue = Cue<U32>
  type FileStep = TimelineStep<U64>
  type FileTimeline = Timeline<U64>
  type FileShow = Show<U32, U64>

  const MAGIC: seq<Byte> := [82, 70, 83, 72]
  const VERSION := 5
  const MIN_READABLE_VERSION := 2

  // ---- writing -------------------------------------------------------------

  function Flag(b: bool): Byte { if b then 1 else 0 }

  /** A length prefix and the bytes themselves. */
  function BlobBytes(s: seq<Byte>, t: seq<Byte>): seq<Byte> {
    LE(|s|, 4) + (s + t)
  }

  function EffectBytes(version: nat, e: FileEffect, t: seq<Byte>): seq<Byte> {
    [e.kind] + ([e.direction] + (LE(e.rateHz, 4) + (LE(e.amount, 4) + ([e.axis] + ([e.r] + ([e.g] + ([e.b]
    + ([Flag(e.enabled)] + (if version >= 5 then [Flag(e.syncToTempo)] + t else t)))))))))
  }

  function EffectsBytes(version: nat, es: seq<FileEffect>, t: seq<Byte>): seq<Byte> {
    if |es| == 0 then t else EffectBytes(version, es[0], EffectsBytes(version, es[1..], t))
  }

  function TransformBytes(x: Transform<U32>, t: seq<Byte>): seq<Byte> {
    LE(x.offsetX, 4) + (LE(x.offsetY, 4) + (LE(x.scale, 4) + (LE(x.rotationTurns, 4) + (LE(x.brightness, 4) + t))))
  }

  /** The effect list is there from version 4 on. */
  function EffectListBytes(version: nat, es: seq<FileEffect>, t: seq<Byte>): seq<Byte> {
    if version >= 4 then LE(|es|, 4) + EffectsBytes(version, es, t) else t
  }

  function CueBytes(version: nat, c: FileCue, t: seq<Byte>): seq<Byte> {
    BlobBytes(c.name, LE(c.framesPerSecond, 4) + ([Flag(c.loop)] + TransformBytes(c.transform,
      LE(c.spinTurnsPerSec, 4) + BlobBytes(IldaBytes(c.frames), EffectListBytes(version, c.effects, t)))))
  }

  function CuesBytes(version: nat, cs: seq<FileCue>, t: seq<Byte>): seq<Byte> {
    if |cs| == 0 then t else CueBytes(version, cs[0], CuesBytes(version, cs[1..], t))
  }

  function StepsBytes(ss: seq<FileStep>, t: seq<Byte>): seq<Byte> {
    if |ss| == 0 then t
    else LE(ss[0].timeSeconds, 8) + (LE(ss[0].cueIndex, 4) + StepsBytes(ss[1..], t))
  }

  /** The timeline block is there from version 3 on. */
  function TimelineBytes(version: nat, x: FileTimeline, t: seq<Byte>): seq<Byte> {
    if version >= 3 then
      BlobBytes(x.name, LE(x.durationSeconds, 8) + ([Flag(x.loop)] + (LE(|x.steps|, 4) + StepsBytes(x.steps, t))))
    else t
  }

  function ShowBytes(version: nat, s: FileShow, t: seq<Byte>): seq<Byte> {
    MAGIC + (LE(version, 4) + BlobBytes(s.name,
      LE(|s.cues|, 4) + CuesBytes(version, s.cues, TimelineBytes(version, s.timeline, t))))
  }

  // ---- the cursor ----------------------------------------------------------

  /** Unread bytes and the sticky success flag; a read may still succeed after a failure. */
  datatype Cursor = Cursor(rest: seq<Byte>, ok: bool)

  function ReadU8(c: Cursor): (r: (Byte, Cursor))
    ensures r.1.ok ==> c.ok
  {
    if |c.rest| < 1 then (0, c.(ok := false)) else (c.rest[0], c.(rest := c.rest[1..]))
  }

  /** A little-endian integer of n bytes. */
  function ReadWord(c: Cursor, n: nat): (r: (nat, Cursor))
    ensures r.1.ok ==> c.ok
    ensures r.0 < Base(n)
  {
    if |c.rest| < n then (0, c.(ok := false)) else (FromLE(c.rest[..n]), c.(rest := c.rest[n..]))
  }

  function ReadU32(c: Cursor): (r: (U32, Cursor))
    ensures r.1.ok ==> c.ok
  {
    WordSizes();
    ReadWord(c, 4)
  }

  function ReadU64(c: Cursor): (r: (U64, Cursor))
    ensures r.1.ok ==> c.ok
  {
    WordSizes();
    ReadWord(c, 8)
  }

  function ReadBlob(c: Cursor): (r: (seq<Byte>, Cursor))
    ensures r.1.ok ==> c.ok
  {
    var (n, c1) := ReadU32(c);
    if !c1.ok || |c1.rest| < n then ([], c1.(ok := false)) else (c1.rest[..n], c1.(rest := c1.rest[n..]))
  }

  // ---- reading -------------------------------------------------------------

  function ReadEffect(version: nat, c: Cursor): (r: (FileEffect, Cursor))
    ensures r.1.ok ==> c.ok
  {
    var (kind, c1) := ReadU8(c);
    var (direction, c2) := ReadU8(c1);
    var (rateHz, c3) := ReadU32(c2);
    var (amount, c4) := ReadU32(c3);
    var (axis, c5) := ReadU8(c4);
    var (red, c6) := ReadU8(c5);
    var (green, c7) := ReadU8(c6);
    var (blue, c8) := ReadU8(c7);
    var (enabled, c9) := ReadU8(c8);
    var (sync, c10) := if version >= 5 then ReadU8(c9) else (0, c9);
    (Effect(kind, direction, rateHz, amount, axis, red, green, blue, enabled != 0, sync != 0), c10)
  }

  function ReadEffects(version: nat, n: nat, c: Cursor): (r: (seq<FileEffect>, Cursor))
    ensures r.1.ok ==> c.ok
  {
    if n == 0 || !c.ok then ([], c)
    else
      var (e, c1) := ReadEffect(version, c);
      var (es, c2) := ReadEffects(version, n - 1, c1);
      ([e] + es, c2)
  }

  function ReadEffectList(version: nat, c: Cursor): (r: (seq<FileEffect>, Cursor))
    ensures r.1.ok ==> c.ok
  {
    if version >= 4 then
      var (n, c1) := ReadU32(c);
      ReadEffects(version, n, c1)
    else ([], c)
  }

  function ReadTransform(c: Cursor): (r: (Transform<U32>, Cursor))
    ensures r.1.ok ==> c.ok
  {
    var (offsetX, c1) := ReadU32(c);
    var (offsetY, c2) := ReadU32(c1);
    var (scale, c3) := ReadU32(c2);
    var (rotation, c4) := ReadU32(c3);
    var (brightness, c5) := ReadU32(c4);
    (Transform(offsetX, offsetY, scale, rotation, brightness), c5)
  }

  /** How one pass of the cue loop ends. */
  datatype CueOutcome = CueRead(cue: FileCue, c: Cursor) | CueBroke(c: Cursor) | CueBadFrames(error: IldaError)

  function ReadCue(version: nat, c: Cursor): (r: CueOutcome)
    ensures r.CueRead? && r.c.ok ==> c.ok
    ensures r.CueBroke? ==> !r.c.ok
  {
    var (name, c1) := ReadBlob(c);
    var (fps, c2) := ReadU32(c1);
    if |c2.rest| < 1 then CueBroke(c2.(ok := false))
    else
      var (loop, c3) := ReadU8(c2);
      var (transform, c4) := ReadTransform(c3);
      var (spin, c5) := ReadU32(c4);
      var (blob, c6) := ReadBlob(c5);
      if !c6.ok then CueBroke(c6)
      else
        var frames := ParseIlda(blob);
        if !frames.ok then CueBadFrames(frames.error)
        else
          var (effects, c7) := ReadEffectList(version, c6);
          CueRead(Cue(name, frames.frames, fps, loop != 0, transform, spin, effects), c7)
  }

  datatype CuesOutcome = CuesRead(cues: seq<FileCue>, c: Cursor) | BadFrames(error: IldaError)

  function ReadCues(version: nat, n: nat, c: Cursor): (r: CuesOutcome)
    ensures r.CuesRead? && r.c.ok ==> c.ok
  {
    if n == 0 || !c.ok then CuesRead([], c)
    else
      match ReadCue(version, c)
      case CueBroke(c1) => CuesRead([], c1)
      case CueBadFrames(e) => BadFrames(e)
      case CueRead(cue, c1) =>
        match ReadCues(version, n - 1, c1)
        case BadFrames(e) => BadFrames(e)
        case CuesRead(cues, c2) => CuesRead([cue] + cues, c2)
  }

  function ReadSteps(n: nat, c: Cursor): (r: (seq<FileStep>, Cursor))
    ensures r.1.ok ==> c.ok
  {
    if n == 0 || !c.ok then ([], c)
    else
      var (time, c1) := ReadU64(c);
      var (index, c2) := ReadU32(c1);
      var (ss, c3) := ReadSteps(n - 1, c2);
      ([TimelineStep(time, index)] + ss, c3)
  }

  function NoTimeline(): FileTimeline { Timeline([], [], 0, false) }

  function ReadTimeline(version: nat, c: Cursor): (r: (FileTimeline, Cursor))
    ensures r.1.ok ==> c.ok
  {
    if !c.ok || version < 3 then (NoTimeline(), c)
    else
      var (name, c1) := ReadBlob(c);
      var (duration, c2) := ReadU64(c1);
      var (loop, c3) := ReadU8(c2);
      if |c2.rest| < 1 then (Timeline(name, [], duration, false), c3)
      else
        var (n, c4) := ReadU32(c3);
        var (steps, c5) := ReadSteps(n, c4);
        (Timeline(name, steps, duration, loop != 0), c5)
  }

  datatype ShowResult =
    | Loaded(show: FileShow)
    | BadMagic
    | UnsupportedVersion
    | BadEmbeddedFrames(error: IldaError)
    | Truncated

  /** The result of reading a file and the bytes left over. */
  datatype Outcome = Outcome(result: ShowResult, rest: seq<Byte>)

  function ParseShow(d: seq<Byte>): Outcome {
    if |d| < 8 || d[..4] != MAGIC then Outcome(BadMagic, d)
    else
      var (version, c1) := ReadU32(Cursor(d[4..], true));
      if version < MIN_READABLE_VERSION || version > VERSION then Outcome(UnsupportedVersion, c1.rest)
      else
        var (name, c2) := ReadBlob(c1);
        var (n, c3) := ReadU32(c2);
        match ReadCues(version, n, c3)
        case BadFrames(e) => Outcome(BadEmbeddedFrames(e), [])
        case CuesRead(cues, c4) =>
          var (timeline, c5) := ReadTimeline(version, c4);
          if c5.ok then Outcome(Loaded(Show(name, cues, timeline)), c5.rest) else Outcome(Truncated, c5.rest)
  }
}
