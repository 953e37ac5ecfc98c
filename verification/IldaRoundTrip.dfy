/** What survives writing frames to an ILDA stream and reading them back. */
module IldaRoundTrip {
  import opened Bytes
  import opened IldaTypes
  import opened IldaFormat
  import opened IldaSections
  import opened IldaNorm

  // ---- the writer's output as sections -------------------------------------

  function FormatOf(is3D: bool): Byte { if is3D then 4 else 5 }

  function MetaFor(name: seq<Byte>, company: seq<Byte>, f: nat, total: nat): Meta {
    Meta([0, 0, 0], PutName(name), PutName(company), U16BE(f) + U16BE(total) + [0, 0])
  }

  function RecordFor(p: IldaPoint, is3D: bool, last: bool): Record {
    Record(ToInt16(p.x), ToInt16(p.y), if is3D then ToInt16(p.z) else 0,
           StatusByte(p.blanked, last), TrueColour(p.r, p.g, p.b))
  }

  function RecordsFor(ps: seq<IldaPoint>, is3D: bool): (rs: seq<Record>)
    ensures |rs| == |ps|
    ensures forall i :: 0 <= i < |rs| ==> rs[i].colour.TrueColour?
  {
    if |ps| == 0 then [] else [RecordFor(ps[0], is3D, |ps| == 1)] + RecordsFor(ps[1..], is3D)
  }

  lemma HeaderIsMeta(format: Byte, name: seq<Byte>, company: seq<Byte>, records: nat, f: nat, total: nat,
                     t: seq<Byte>)
    ensures HeaderBytes(format, name, company, records, f, total) + t
         == MetaBytes(MetaFor(name, company, f, total), format, records, t)
  {}

  lemma PointIsRecord(p: IldaPoint, is3D: bool, last: bool)
    ensures PointBytes(p, is3D, last) == RecordBytes(RecordFor(p, is3D, last), FormatOf(is3D))
  {
    hide ToInt16, StatusByte, I16BE;
  }

  lemma {:induction false} PointsAreRecords(ps: seq<IldaPoint>, is3D: bool, t: seq<Byte>)
    ensures PointsBytes(ps, is3D) + t == RecordsBytes(RecordsFor(ps, is3D), FormatOf(is3D), t)
  {
    hide PointBytes, RecordBytes, RecordFor;
    if |ps| == 0 {
    } else {
      PointsAreRecords(ps[1..], is3D, t);
      PointIsRecord(ps[0], is3D, |ps| == 1);
      assert RecordsFor(ps, is3D)[1..] == RecordsFor(ps[1..], is3D);
      assert PointsBytes(ps, is3D) + t
          == PointBytes(ps[0], is3D, |ps| == 1) + (PointsBytes(ps[1..], is3D) + t);
    }
  }

  lemma {:induction false} RecordsMeanNormPoints(ps: seq<IldaPoint>, is3D: bool, palette: seq<Rgb>)
    ensures PointsOf(RecordsFor(ps, is3D), FormatOf(is3D), palette) == NormPoints(ps, is3D)
  {
    hide ToInt16, FromInt16;
    if |ps| == 0 {
    } else {
      assert RecordsFor(ps, is3D)[1..] == RecordsFor(ps[1..], is3D);
      RecordsMeanNormPoints(ps[1..], is3D, palette);
    }
  }

  lemma {:induction false} OneFrame(frame: IldaFrame, f: nat, total: nat, palette: seq<Rgb>, saw: bool, t: seq<Byte>)
    requires 1 <= |frame.points| <= 65535
    ensures ReadSections(FrameBytes(frame, f, total) + t, palette, saw)
         == Prepend([NormFrame(frame)], ReadSections(t, palette, true))
  {
    hide ReadSections, HeaderBytes, MetaBytes, PointsBytes, RecordsBytes, PutName, ReadName, NormName,
         PointsOf, NormPoints;
    var m, rs := MetaFor(frame.name, frame.company, f, total), RecordsFor(frame.points, frame.is3D);
    var s := Frame(m, FormatOf(frame.is3D), rs);
    var p := PointsBytes(frame.points, frame.is3D);
    PointsAreRecords(frame.points, frame.is3D, t);
    HeaderIsMeta(FormatOf(frame.is3D), frame.name, frame.company, |rs|, f, total, p + t);
    assert FrameBytes(frame, f, total) + t == SectionBytes(s, t);
    SectionRoundTrip(s, palette, saw, t);
    RecordsMeanNormPoints(frame.points, frame.is3D, palette);
    NameRoundTrip(frame.name);
    NameRoundTrip(frame.company);
    assert FramesOf(s, palette) == [NormFrame(frame)];
  }

  lemma ZeroRecordsStop(format: Byte, name: seq<Byte>, company: seq<Byte>, records: nat, f: nat, total: nat,
                        palette: seq<Rgb>, saw: bool, t: seq<Byte>)
    requires records % 65536 == 0
    ensures ReadSections(HeaderBytes(format, name, company, records, f, total) + t, palette, saw) == Done()
  {
    hide HeaderBytes, MetaBytes, Records;
    HeaderIsMeta(format, name, company, records, f, total, t);
    HeaderFields(MetaFor(name, company, f, total), format, records, t);
  }

  /** Reading back a stream returns the normalised frames before the first one whose
      point count reads as zero, whatever follows the stream. */
  lemma {:induction false} StreamRoundTrip(frames: IldaShow, f: nat, total: nat, palette: seq<Rgb>, saw: bool,
                                           t: seq<Byte>)
    requires CountsFit(frames)
    ensures ReadSections(StreamBytes(frames, f, total) + t, palette, saw)
         == ParseResult(true, NoError, NormShow(BeforeEof(frames)))
  {
    hide ReadSections, HeaderBytes, NormFrame, PointsBytes;
    if |frames| == 0 {
      ZeroRecordsStop(5, [], [], 0, 0, total, palette, saw, t);
    } else {
      var frame := frames[0];
      var rest := StreamBytes(frames[1..], f + 1, total) + t;
      assert StreamBytes(frames, f, total) + t == FrameBytes(frame, f, total) + rest;
      if ReadsAsEof(frame) {
        EofFrameStops(frame, f, total, palette, saw, rest);
      } else {
        assert BeforeEof(frames) == [frame] + BeforeEof(frames[1..]);
        assert frame in BeforeEof(frames);
        OneFrame(frame, f, total, palette, saw, rest);
        assert CountsFit(frames[1..]) by {
          forall g | g in BeforeEof(frames[1..]) ensures |g.points| <= 65535 { assert g in BeforeEof(frames); }
        }
        StreamRoundTrip(frames[1..], f + 1, total, palette, true, t);
      }
    }
  }

  lemma WriteReadIlda(show: IldaShow)
    requires CountsFit(show)
    ensures ParseIlda(IldaBytes(show)) == ParseResult(true, NoError, NormShow(BeforeEof(show)))
  {
    StreamRoundTrip(show, 0, |show|, DEFAULT_PALETTE, false, []);
    assert IldaBytes(show) + [] == IldaBytes(show);
  }

  /** A frame the 16-bit count cannot hold comes back with fewer points. */
  lemma OverflowShort(frame: IldaFrame, f: nat, total: nat, palette: seq<Rgb>, saw: bool, t: seq<Byte>)
    requires |frame.points| > 65535 && !ReadsAsEof(frame)
    ensures var r := ReadSections(FrameBytes(frame, f, total) + t, palette, saw);
            |r.frames| > 0 && |r.frames[0].points| < |frame.points|
  {
    hide ReadSections, HeaderBytes, MetaBytes, PointsBytes, RecordsBytes, ReadName, Records, NormFrame;
    var n := |frame.points|;
    var p := PointsBytes(frame.points, frame.is3D);
    var format := FormatOf(frame.is3D);
    var d := FrameBytes(frame, f, total) + t;
    HeaderIsMeta(format, frame.name, frame.company, n, f, total, p + t);
    assert d == HeaderBytes(format, frame.name, frame.company, n, f, total) + (p + t);
    HeaderFields(MetaFor(frame.name, frame.company, f, total), format, n, p + t);
    PointsAreRecords(frame.points, frame.is3D, t);
    var rs := RecordsFor(frame.points, frame.is3D);
    RecordsRoundTrip(rs, format, palette, t);
    assert PointSize(format) * (n % 65536) <= PointSize(format) * n;
    FrameStep(d, palette, saw);
  }

  lemma {:induction false} StreamExactly(frames: IldaShow, f: nat, total: nat, palette: seq<Rgb>, saw: bool)
    ensures ReadSections(StreamBytes(frames, f, total), palette, saw).frames == NormShow(frames)
            <==> forall g :: g in frames ==> 1 <= |g.points| <= 65535
  {
    hide ReadSections, HeaderBytes, NormFrame, PointsBytes, FrameBytes;
    if |frames| == 0 {
      ZeroRecordsStop(5, [], [], 0, 0, total, palette, saw, []);
      assert HeaderBytes(5, [], [], 0, 0, total) + [] == HeaderBytes(5, [], [], 0, 0, total);
    } else {
      var frame := frames[0];
      var rest := StreamBytes(frames[1..], f + 1, total);
      var r := ReadSections(FrameBytes(frame, f, total) + rest, palette, saw);
      assert frames == [frame] + frames[1..];
      assert frame in frames;
      if ReadsAsEof(frame) {
        EofFrameStops(frame, f, total, palette, saw, rest);
      } else if |frame.points| > 65535 {
        OverflowShort(frame, f, total, palette, saw, rest);
        assert NormShow(frames)[0] == NormFrame(frame);
        NormKeepsCount(frame);
      } else {
        OneFrame(frame, f, total, palette, saw, rest);
        StreamExactly(frames[1..], f + 1, total, palette, true);
        var tail := ReadSections(rest, palette, true).frames;
        assert r.frames == [NormFrame(frame)] + tail;
        assert r.frames == NormShow(frames) <==> tail == NormShow(frames[1..]) by {
          assert r.frames[1..] == tail && NormShow(frames)[1..] == NormShow(frames[1..]);
        }
      }
    }
  }

  lemma NormKeepsCount(frame: IldaFrame)
    ensures |NormFrame(frame).points| == |frame.points|
  {}

  lemma EofFrameStops(frame: IldaFrame, f: nat, total: nat, palette: seq<Rgb>, saw: bool, t: seq<Byte>)
    requires ReadsAsEof(frame)
    ensures ReadSections(FrameBytes(frame, f, total) + t, palette, saw) == Done()
  {
    hide ReadSections, HeaderBytes, PointsBytes;
    var p := PointsBytes(frame.points, frame.is3D);
    var h := HeaderBytes(FormatOf(frame.is3D), frame.name, frame.company, |frame.points|, f, total);
    ZeroRecordsStop(FormatOf(frame.is3D), frame.name, frame.company, |frame.points|, f, total, palette, saw, p + t);
    assert FrameBytes(frame, f, total) + t == h + (p + t);
  }

  /** Every frame comes back, normalised, exactly when each has between 1 and 65535 points. */
  lemma NoFrameLostExactly(show: IldaShow)
    ensures ParseIlda(IldaBytes(show)).frames == NormShow(show)
            <==> forall f :: f in show ==> 1 <= |f.points| <= 65535
  {
    StreamExactly(show, 0, |show|, DEFAULT_PALETTE, false);
  }

  /** The codec loses frames silently: one that reads as the end, wherever it stands, hides
      itself and everything after it. */
  lemma EmptyFrameHidesRest(before: IldaShow, empty: IldaFrame, after: IldaShow)
    requires CountsFit(before) && ReadsAsEof(empty)
    ensures ParseIlda(IldaBytes(before + [empty] + after)) == ParseResult(true, NoError, NormShow(BeforeEof(before)))
  {
    BeforeEofStops(before, empty, after);
    WriteReadIlda(before + [empty] + after);
  }

  lemma {:induction false} BeforeEofStops(before: IldaShow, empty: IldaFrame, after: IldaShow)
    requires ReadsAsEof(empty)
    ensures BeforeEof(before + [empty] + after) == BeforeEof(before)
  {
    var all := before + [empty] + after;
    if |before| == 0 || ReadsAsEof(before[0]) {
    } else {
      BeforeEofStops(before[1..], empty, after);
      assert all[1..] == before[1..] + [empty] + after;
    }
  }

  /** Whatever was accepted is a fixed point of writing and reading. */
  lemma ReadWriteFixed(d: seq<Byte>)
    ensures ParseIlda(IldaBytes(ParseIlda(d).frames)) == ParseResult(true, NoError, ParseIlda(d).frames)
  {
    var frames := ParseIlda(d).frames;
    ReaderCanonical(d, DEFAULT_PALETTE, false);
    CanonicalFixed(frames);
    WriteReadIlda(frames);
  }

  // ---- what the reader does not look at ------------------------------------

  /** The first eight bytes of a name, zeros after its end. */
  function Padded(s: seq<Byte>): seq<Byte> { (s + [0, 0, 0, 0, 0, 0, 0, 0])[..8] }

  lemma HeaderNumbers(format: Byte, name: seq<Byte>, company: seq<Byte>, records: nat, f: nat, total: nat,
                      t: seq<Byte>)
    ensures var d := HeaderBytes(format, name, company, records, f, total) + t;
            && d[..8] == [73, 76, 68, 65, 0, 0, 0, format] && d[30..32] == [0, 0]
            && d[8..16] == Padded(name) && d[16..24] == Padded(company)
            && FromU16BE(d[24..]) == records % 65536
            && FromU16BE(d[26..]) == f % 65536
            && FromU16BE(d[28..]) == total % 65536
  {
    var h := HeaderBytes(format, name, company, records, f, total);
    var d := h + t;
    assert h[24..26] == U16BE(records) && h[26..28] == U16BE(f) && h[28..30] == U16BE(total);
    assert d[24..] == U16BE(records) + d[26..] && d[26..] == U16BE(f) + d[28..] && d[28..] == U16BE(total) + d[30..];
    U16RoundTrip(records, d[26..]);
    U16RoundTrip(f, d[28..]);
    U16RoundTrip(total, d[30..]);
  }

  /** Each header holds the signature, the format, the frame's number and the total. */
  lemma HeaderCarriesNumbers(frames: IldaShow, f: nat, total: nat)
    ensures var d := StreamBytes(frames, f, total);
            && |d| >= 32 && d[..7] == [73, 76, 68, 65, 0, 0, 0] && d[30..32] == [0, 0]
            && d[7] == (if |frames| > 0 && frames[0].is3D then 4 else 5)
            && d[8..16] == Padded(if |frames| > 0 then frames[0].name else [])
            && d[16..24] == Padded(if |frames| > 0 then frames[0].company else [])
            && FromU16BE(d[26..]) == (if |frames| == 0 then 0 else f % 65536)
            && FromU16BE(d[28..]) == total % 65536
  {
    hide PointsBytes, HeaderBytes, FromU16BE;
    if |frames| == 0 {
      HeaderNumbers(5, [], [], 0, 0, total, []);
      assert HeaderBytes(5, [], [], 0, 0, total) + [] == HeaderBytes(5, [], [], 0, 0, total);
    } else {
      var g := frames[0];
      var p := PointsBytes(g.points, g.is3D) + StreamBytes(frames[1..], f + 1, total);
      HeaderNumbers(FormatOf(g.is3D), g.name, g.company, |g.points|, f, total, p);
      assert StreamBytes(frames, f, total)
          == HeaderBytes(FormatOf(g.is3D), g.name, g.company, |g.points|, f, total) + p;
    }
  }

  /** A status byte is the blanking bit of its point and, on the last point only, the last-point bit. */
  lemma {:induction false} LastPointFlag(ps: seq<IldaPoint>, is3D: bool, i: nat)
    requires i < |ps|
    ensures var k := PointSize(FormatOf(is3D)) * i + if is3D then 6 else 4;
            && k < |PointsBytes(ps, is3D)|
            && PointsBytes(ps, is3D)[k] == (if ps[i].blanked then 64 else 0) + (if i == |ps| - 1 then 128 else 0)
  {
    hide PointBytes;
    var size := PointSize(FormatOf(is3D));
    StatusAt(ps[0], is3D, |ps| == 1);
    if i == 0 {
    } else {
      LastPointFlag(ps[1..], is3D, i - 1);
      assert size * i == size + size * (i - 1);
    }
  }

  lemma StatusAt(p: IldaPoint, is3D: bool, last: bool)
    ensures var d := PointBytes(p, is3D, last);
            var k := if is3D then 6 else 4;
            |d| == PointSize(FormatOf(is3D)) && d[k] == (if p.blanked then 64 else 0) + (if last then 128 else 0)
  {
    hide ToInt16, I16BE;
  }

  // ---- truncation ----------------------------------------------------------

  lemma {:induction false} ReadPointsLocal(d: seq<Byte>, k: nat, format: Byte, n: nat, palette: seq<Rgb>)
    requires Supported(format) && PointSize(format) * n <= k <= |d|
    ensures ReadPoints(d[..k], format, n, palette) == ReadPoints(d, format, n, palette)
  {
    hide FromInt16, Lookup;
    if n == 0 {
    } else {
      var size := PointSize(format);
      assert size * n == size + size * (n - 1);
      ReadPointsLocal(d[size..], k - size, format, n - 1, palette);
      assert d[..k][size..] == d[size..][..k - size];
      var e := d[..k];
      assert e[2..][0] == d[2..][0] && e[2..][1] == d[2..][1];
      if Is3D(format) {
        assert e[4..][0] == d[4..][0] && e[4..][1] == d[4..][1];
      }
      assert ReadPoint(e, format, palette) == ReadPoint(d, format, palette);
    }
  }

  lemma {:induction false} ReadPaletteLocal(d: seq<Byte>, k: nat, n: nat)
    requires 3 * n <= k <= |d|
    ensures ReadPalette(d[..k], n) == ReadPalette(d, n)
  {
    if n == 0 {
    } else {
      ReadPaletteLocal(d[3..], k - 3, n - 1);
      assert d[..k][3..] == d[3..][..k - 3];
    }
  }

  lemma ReadFrameLocal(d: seq<Byte>, k: nat, palette: seq<Rgb>)
    requires 32 <= k <= |d| && Supported(d[7]) && 32 + PointSize(d[7]) * Records(d) <= k
    ensures Records(d[..k]) == Records(d)
    ensures ReadFrame(d[..k], palette) == ReadFrame(d, palette)
  {
    hide ReadPoints, ReadName, Records, PointSize;
    RecordsLocal(d, k);
    ReadPointsLocal(d[32..], k - 32, d[7], Records(d), palette);
    assert d[..k][32..] == d[32..][..k - 32];
    assert d[..k][8..16] == d[8..16] && d[..k][16..24] == d[16..24];
  }

  /** Cutting any byte string short only loses frames from the end. */
  lemma {:induction false} TruncationKeepsPrefix(d: seq<Byte>, k: nat, palette: seq<Rgb>, saw: bool)
    requires k <= |d|
    ensures ReadSections(d[..k], palette, saw).frames <= ReadSections(d, palette, saw).frames
    decreases |d|
  {
    hide ReadSections, ReadPalette, ReadFrame, Records, PointSize;
    var e := d[..k];
    if !WholeSection(e) {
      StopStep(e, palette, saw);
    } else {
      RecordsLocal(d, k);
      assert e[..4] == d[..4];
      var m := SectionSize(d);
      assert WholeSection(d) && SectionSize(e) == m;
      assert e[m..] == d[m..][..k - m];
      if d[7] == 2 {
        PaletteStep(d, palette, saw);
        PaletteStep(e, palette, saw);
        ReadPaletteLocal(d[32..], k - 32, Records(d));
        assert e[32..] == d[32..][..k - 32];
        TruncationKeepsPrefix(d[m..], k - m, ReadPalette(d[32..], Records(d)), true);
      } else {
        FrameStep(d, palette, saw);
        FrameStep(e, palette, saw);
        ReadFrameLocal(d, k, palette);
        TruncationKeepsPrefix(d[m..], k - m, palette, true);
      }
    }
  }

  lemma PartialFileKeepsPrefix(d: seq<Byte>, k: nat)
    requires k <= |d|
    ensures ParseIlda(d[..k]).frames <= ParseIlda(d).frames
  {
    TruncationKeepsPrefix(d, k, DEFAULT_PALETTE, false);
  }
}
