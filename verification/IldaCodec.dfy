/** The ILDA writer and reader as loops over an output buffer and an input position. */
module IldaCodec {
  import opened Bytes
  import opened IldaTypes
  import opened IldaFormat
  import opened IldaSections

  // ---- the imperative codec ------------------------------------------------

  /** One frame's header and points. */
  method WriteFrame(before: seq<Byte>, frame: IldaFrame, f: nat, total: nat) returns (out: seq<Byte>)
    ensures out == before + FrameBytes(frame, f, total)
  {
    hide HeaderBytes, PointBytes;
    out := before + HeaderBytes(if frame.is3D then 4 else 5, frame.name, frame.company, |frame.points|, f, total);
    assert frame.points[0..] == frame.points;
    assert out + PointsBytes(frame.points, frame.is3D) == before + FrameBytes(frame, f, total);
    var i := 0;
    while i < |frame.points|
      invariant 0 <= i <= |frame.points|
      invariant out + PointsBytes(frame.points[i..], frame.is3D) == before + FrameBytes(frame, f, total)
    {
      assert frame.points[i..][1..] == frame.points[i + 1..];
      out := out + PointBytes(frame.points[i], frame.is3D, i + 1 == |frame.points|);
      i := i + 1;
    }
  }

  method WriteIlda(show: IldaShow) returns (out: seq<Byte>)
    ensures out == IldaBytes(show)
  {
    hide HeaderBytes, FrameBytes;
    out := [];
    var total := |show|;
    var f := 0;
    while f < |show|
      invariant 0 <= f <= |show|
      invariant out + StreamBytes(show[f..], f, total) == IldaBytes(show)
    {
      assert show[f..][1..] == show[f + 1..];
      out := WriteFrame(out, show[f], f, total);
      f := f + 1;
    }
    assert show[f..] == [];
    out := out + HeaderBytes(5, [], [], 0, 0, total);
  }

  method ReadPaletteSection(bytes: seq<Byte>, start: nat, records: nat) returns (palette: seq<Rgb>, pos: nat)
    requires start + 3 * records <= |bytes|
    ensures pos == start + 3 * records && palette == ReadPalette(bytes[start..], records)
  {
    pos, palette := start, [];
    var i := 0;
    while i < records
      invariant 0 <= i <= records && pos == start + 3 * i
      invariant palette + ReadPalette(bytes[pos..], records - i) == ReadPalette(bytes[start..], records)
    {
      assert bytes[pos..][3..] == bytes[pos + 3..];
      palette := palette + [Rgb(bytes[pos], bytes[pos + 1], bytes[pos + 2])];
      pos := pos + 3;
      i := i + 1;
    }
  }

  method ReadPointRecords(bytes: seq<Byte>, start: nat, format: Byte, records: nat, palette: seq<Rgb>)
    returns (points: seq<IldaPoint>, pos: nat)
    requires Supported(format) && start + PointSize(format) * records <= |bytes|
    ensures pos == start + PointSize(format) * records
    ensures points == ReadPoints(bytes[start..], format, records, palette)
  {
    hide ReadPoint;
    pos, points := start, [];
    var i := 0;
    var size := PointSize(format);
    while i < records
      invariant 0 <= i <= records && pos == start + size * i && size * i + size * (records - i) == size * records
      invariant points + ReadPoints(bytes[pos..], format, records - i, palette)
             == ReadPoints(bytes[start..], format, records, palette)
    {
      assert bytes[pos..][size..] == bytes[pos + size..];
      points := points + [ReadPoint(bytes[pos..], format, palette)];
      pos := pos + size;
      i := i + 1;
    }
  }

  /** The frame whose 32-byte header ends at pos. */
  method ReadFrameSection(bytes: seq<Byte>, start: nat, palette: seq<Rgb>) returns (frame: IldaFrame, pos: nat)
    requires start <= |bytes| && WholeSection(bytes[start..]) && bytes[start + 7] != 2
    ensures pos == start + SectionSize(bytes[start..]) && frame == ReadFrame(bytes[start..], palette)
  {
    hide ReadPoints, Records, ReadName, Supported, PointSize;
    ghost var d := bytes[start..];
    var h := bytes[start..start + 32];
    assert h == d[..32];
    RecordsLocal(d, 32);
    assert d[32..] == bytes[start + 32..];
    var points;
    points, pos := ReadPointRecords(bytes, start + 32, h[7], Records(h), palette);
    assert h[8..16] == d[8..16] && h[16..24] == d[16..24];
    frame := IldaFrame(ReadName(h[8..16]), ReadName(h[16..24]), Is3D(h[7]), points);
  }

  method ReadIlda(bytes: seq<Byte>) returns (result: ParseResult)
    ensures result == ParseIlda(bytes)
  {
    hide ReadSections, ReadPalette, ReadFrame, Supported, PointSize, Records;
    var pos := 0;
    var palette := DEFAULT_PALETTE;
    var sawAnyHeader := false;
    var frames: IldaShow := [];
    assert bytes[0..] == bytes;
    while pos + 32 <= |bytes|
      invariant 0 <= pos <= |bytes|
      invariant Prepend(frames, ReadSections(bytes[pos..], palette, sawAnyHeader)) == ParseIlda(bytes)
    {
      ghost var d := bytes[pos..];
      ghost var saw := sawAnyHeader;
      var h := bytes[pos..pos + 32];
      assert h == d[..32] && h[..4] == d[..4];
      RecordsLocal(d, 32);
      if !WholeSection(d) {
        StopStep(d, palette, saw);
      }
      if h[..4] != [73, 76, 68, 65] {
        return ParseResult(false, MissingSignature, frames);
      }
      sawAnyHeader := true;
      var format := h[7];
      var records := Records(h);
      if records == 0 {
        return ParseResult(true, NoError, frames);
      }
      if format == 2 {
        if pos + 32 + 3 * records > |bytes| {
          return ParseResult(false, TruncatedPalette, frames);
        }
        PaletteStep(d, palette, saw);
        assert d[32..] == bytes[pos + 32..];
        assert d[SectionSize(d)..] == bytes[pos + SectionSize(d)..];
        palette, pos := ReadPaletteSection(bytes, pos + 32, records);
      } else {
        if !Supported(format) {
          return ParseResult(false, UnsupportedFormat(format), frames);
        }
        if pos + 32 + PointSize(format) * records > |bytes| {
          return ParseResult(false, TruncatedPoints, frames);
        }
        FrameStep(d, palette, saw);
        assert d[SectionSize(d)..] == bytes[pos + SectionSize(d)..];
        var frame;
        frame, pos := ReadFrameSection(bytes, pos, palette);
        frames := frames + [frame];
      }
    }
    StopStep(bytes[pos..], palette, sawAnyHeader);
    if !sawAnyHeader {
      return ParseResult(false, TooSmall, frames);
    }
    result := ParseResult(true, NoError, frames);
  }
}
