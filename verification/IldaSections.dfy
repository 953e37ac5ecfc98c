/** An ILDA stream as a list of sections, independent of byte offsets, and the proof
    that the reader is a fold over that list. */
module IldaSections {
  import opened Bytes
  import opened IldaTypes
  import opened IldaFormat

  datatype Colour = Index(i: Byte) | TrueColour(r: Byte, g: Byte, b: Byte)

  datatype Record = Record(x: Int16, y: Int16, z: Int16, status: Byte, colour: Colour)

  /** Header bytes that do not drive the reader's control flow. */
  datatype Meta = Meta(reserved: seq<Byte>, name: seq<Byte>, company: seq<Byte>, tail: seq<Byte>)

  datatype Section =
    | Palette(meta: Meta, colours: seq<Rgb>)
    | Frame(meta: Meta, format: Byte, records: seq<Record>)

  predicate ValidMeta(m: Meta) {
    |m.reserved| == 3 && |m.name| == 8 && |m.company| == 8 && |m.tail| == 6
  }

  predicate ValidSection(s: Section) {
    && ValidMeta(s.meta)
    && match s
       case Palette(_, colours) => 1 <= |colours| <= 65535
       case Frame(_, format, records) =>
         && Supported(format) && 1 <= |records| <= 65535
         && forall i :: 0 <= i < |records| ==> records[i].colour.Index? == Indexed(format)
  }

  // ---- one step of the reader ----------------------------------------------

  function Prepend(frames: IldaShow, r: ParseResult): ParseResult {
    r.(frames := frames + r.frames)
  }

  /** Length of the section at the start of d. */
  function SectionSize(d: seq<Byte>): nat
    requires |d| >= 32
  {
    32 + (if d[7] == 2 then 3 else PointSize(d[7])) * Records(d)
  }

  /** d starts with a whole, readable section. */
  predicate WholeSection(d: seq<Byte>) {
    && |d| >= 32 && d[..4] == [73, 76, 68, 65] && Records(d) > 0
    && (d[7] == 2 || Supported(d[7])) && SectionSize(d) <= |d|
  }

  /** What the reader reports where no whole section starts. */
  function StopResult(d: seq<Byte>, sawHeader: bool): ParseResult {
    if |d| < 32 then (if sawHeader then Done() else Fail(TooSmall))
    else if d[..4] != [73, 76, 68, 65] then Fail(MissingSignature)
    else if Records(d) == 0 then Done()
    else if d[7] == 2 then Fail(TruncatedPalette)
    else if !Supported(d[7]) then Fail(UnsupportedFormat(d[7]))
    else Fail(TruncatedPoints)
  }

  lemma StopStep(d: seq<Byte>, palette: seq<Rgb>, saw: bool)
    requires !WholeSection(d)
    ensures ReadSections(d, palette, saw) == StopResult(d, saw)
  {
    hide ReadPalette, ReadFrame, Records, PointSize;
  }

  lemma PaletteStep(d: seq<Byte>, palette: seq<Rgb>, saw: bool)
    requires WholeSection(d) && d[7] == 2
    ensures ReadSections(d, palette, saw)
         == ReadSections(d[SectionSize(d)..], ReadPalette(d[32..], Records(d)), true)
  {
    hide ReadPalette, ReadFrame, Records, PointSize;
  }

  lemma FrameStep(d: seq<Byte>, palette: seq<Rgb>, saw: bool)
    requires WholeSection(d) && d[7] != 2
    ensures ReadSections(d, palette, saw)
         == Prepend([ReadFrame(d, palette)], ReadSections(d[SectionSize(d)..], palette, true))
  {
    hide ReadPalette, ReadFrame, Records, PointSize;
  }

  // ---- meaning -------------------------------------------------------------

  function PointOf(r: Record, format: Byte, palette: seq<Rgb>): IldaPoint {
    var c := match r.colour
             case Index(i) => Lookup(palette, i)
             case TrueColour(red, green, blue) => Rgb(red, green, blue);
    IldaPoint(FromInt16(r.x), FromInt16(r.y), if Is3D(format) then FromInt16(r.z) else 0.0,
              c.r, c.g, c.b, r.status / 64 % 2 == 1)
  }

  function PointsOf(rs: seq<Record>, format: Byte, palette: seq<Rgb>): (points: seq<IldaPoint>)
    ensures |points| == |rs|
  {
    if |rs| == 0 then [] else [PointOf(rs[0], format, palette)] + PointsOf(rs[1..], format, palette)
  }

  function PaletteAfter(s: Section, palette: seq<Rgb>): seq<Rgb> {
    if s.Palette? then s.colours else palette
  }

  function FramesOf(s: Section, palette: seq<Rgb>): IldaShow
    requires ValidSection(s)
  {
    if s.Palette? then []
    else [IldaFrame(ReadName(s.meta.name), ReadName(s.meta.company), Is3D(s.format),
                    PointsOf(s.records, s.format, palette))]
  }

  /** Frames in stream order, each coloured by the palette in force where it stands. */
  function Fold(ss: seq<Section>, palette: seq<Rgb>): IldaShow
    requires forall s :: s in ss ==> ValidSection(s)
  {
    if |ss| == 0 then []
    else FramesOf(ss[0], palette) + Fold(ss[1..], PaletteAfter(ss[0], palette))
  }

  function FinalPalette(ss: seq<Section>, palette: seq<Rgb>): seq<Rgb> {
    if |ss| == 0 then palette else FinalPalette(ss[1..], PaletteAfter(ss[0], palette))
  }

  // ---- bytes ---------------------------------------------------------------

  function MetaBytes(m: Meta, format: Byte, records: nat, t: seq<Byte>): seq<Byte> {
    [73, 76, 68, 65] + (m.reserved + ([format] + (m.name + (m.company + (U16BE(records) + (m.tail + t))))))
  }

  function ColourBytes(c: Colour): seq<Byte> {
    match c case Index(i) => [i] case TrueColour(r, g, b) => [b, g, r]
  }

  function RecordBytes(r: Record, format: Byte): seq<Byte> {
    I16BE(r.x) + I16BE(r.y) + (if Is3D(format) then I16BE(r.z) else []) + [r.status] + ColourBytes(r.colour)
  }

  function RecordsBytes(rs: seq<Record>, format: Byte, t: seq<Byte>): seq<Byte> {
    if |rs| == 0 then t else RecordBytes(rs[0], format) + RecordsBytes(rs[1..], format, t)
  }

  function ColoursBytes(cs: seq<Rgb>, t: seq<Byte>): seq<Byte> {
    if |cs| == 0 then t else [cs[0].r, cs[0].g, cs[0].b] + ColoursBytes(cs[1..], t)
  }

  /** A section followed by the bytes t. */
  function SectionBytes(s: Section, t: seq<Byte>): seq<Byte> {
    match s
    case Palette(m, colours) => MetaBytes(m, 2, |colours|, ColoursBytes(colours, t))
    case Frame(m, format, records) => MetaBytes(m, format, |records|, RecordsBytes(records, format, t))
  }

  function SectionsBytes(ss: seq<Section>, t: seq<Byte>): seq<Byte> {
    if |ss| == 0 then t else SectionBytes(ss[0], SectionsBytes(ss[1..], t))
  }

  // ---- reading inverts the bytes -------------------------------------------

  lemma HeaderFields(m: Meta, format: Byte, records: nat, t: seq<Byte>)
    requires ValidMeta(m)
    ensures var d := MetaBytes(m, format, records, t);
            && |d| == 32 + |t| && d[32..] == t
            && d[..4] == [73, 76, 68, 65] && d[7] == format
            && d[8..16] == m.name && d[16..24] == m.company && Records(d) == records % 65536
  {
    var d := MetaBytes(m, format, records, t);
    assert d[24] == U16BE(records)[0] && d[25] == U16BE(records)[1];
    assert d[24..][0] == d[24] && d[24..][1] == d[25];
  }

  lemma {:induction false} ColoursRoundTrip(cs: seq<Rgb>, t: seq<Byte>)
    ensures |ColoursBytes(cs, t)| == 3 * |cs| + |t|
    ensures ReadPalette(ColoursBytes(cs, t), |cs|) == cs
    ensures ColoursBytes(cs, t)[3 * |cs|..] == t
  {
    if |cs| == 0 {
    } else {
      ColoursRoundTrip(cs[1..], t);
      var d := ColoursBytes(cs, t);
      assert d[3..] == ColoursBytes(cs[1..], t);
      assert d[3 * |cs|..] == d[3..][3 * |cs| - 3..];
    }
  }

  lemma RecordRoundTrip(r: Record, format: Byte, palette: seq<Rgb>, t: seq<Byte>)
    requires Supported(format) && r.colour.Index? == Indexed(format)
    ensures |RecordBytes(r, format)| == PointSize(format)
    ensures ReadPoint(RecordBytes(r, format) + t, format, palette) == PointOf(r, format, palette)
  {
    hide FromInt16, Lookup;
    var d := RecordBytes(r, format) + t;
    I16RoundTrip(r.x, d[2..]);
    I16RoundTrip(r.y, d[4..]);
    assert d == I16BE(r.x) + d[2..];
    assert d[2..] == I16BE(r.y) + d[4..];
    if Is3D(format) {
      I16RoundTrip(r.z, d[6..]);
      assert d[4..] == I16BE(r.z) + d[6..];
    }
  }

  lemma {:induction false} RecordsRoundTrip(rs: seq<Record>, format: Byte, palette: seq<Rgb>, t: seq<Byte>)
    requires Supported(format)
    requires forall i :: 0 <= i < |rs| ==> rs[i].colour.Index? == Indexed(format)
    ensures |RecordsBytes(rs, format, t)| == PointSize(format) * |rs| + |t|
    ensures ReadPoints(RecordsBytes(rs, format, t), format, |rs|, palette) == PointsOf(rs, format, palette)
    ensures RecordsBytes(rs, format, t)[PointSize(format) * |rs|..] == t
  {
    hide ReadPoint, PointOf, RecordBytes;
    if |rs| == 0 {
    } else {
      RecordsRoundTrip(rs[1..], format, palette, t);
      var d, size := RecordsBytes(rs, format, t), PointSize(format);
      RecordRoundTrip(rs[0], format, palette, RecordsBytes(rs[1..], format, t));
      assert d[size..] == RecordsBytes(rs[1..], format, t);
      assert size * |rs| == size + size * (|rs| - 1);
      assert d[size * |rs|..] == d[size..][size * (|rs| - 1)..];
    }
  }

  lemma PaletteRoundTrip(m: Meta, cs: seq<Rgb>, palette: seq<Rgb>, saw: bool, t: seq<Byte>)
    requires ValidSection(Palette(m, cs))
    ensures ReadSections(SectionBytes(Palette(m, cs), t), palette, saw) == ReadSections(t, cs, true)
  {
    hide ReadSections, RecordsBytes, ColoursBytes, ReadPalette, MetaBytes, Records, PointSize;
    var b := ColoursBytes(cs, t);
    var d := MetaBytes(m, 2, |cs|, b);
    ColoursRoundTrip(cs, t);
    HeaderFields(m, 2, |cs|, b);
    PaletteStep(d, palette, saw);
    assert d[32 + 3 * |cs|..] == d[32..][3 * |cs|..];
  }

  lemma FrameRoundTrip(m: Meta, format: Byte, rs: seq<Record>, palette: seq<Rgb>, saw: bool, t: seq<Byte>)
    requires ValidSection(Frame(m, format, rs))
    ensures ReadSections(SectionBytes(Frame(m, format, rs), t), palette, saw) ==
            Prepend(FramesOf(Frame(m, format, rs), palette), ReadSections(t, palette, true))
  {
    hide ReadSections, ReadPoints, RecordsBytes, PointsOf, MetaBytes, ReadName, Records, PointSize;
    var b := RecordsBytes(rs, format, t);
    var d := MetaBytes(m, format, |rs|, b);
    RecordsRoundTrip(rs, format, palette, t);
    HeaderFields(m, format, |rs|, b);
    var k := PointSize(format) * |rs|;
    assert d[32 + k..] == d[32..][k..];
    assert format != 2;
    FrameStep(d, palette, saw);
  }

  /** The reader consumes exactly one section, whatever follows it. */
  lemma SectionRoundTrip(s: Section, palette: seq<Rgb>, saw: bool, t: seq<Byte>)
    requires ValidSection(s)
    ensures ReadSections(SectionBytes(s, t), palette, saw) ==
            Prepend(FramesOf(s, palette), ReadSections(t, PaletteAfter(s, palette), true))
  {
    hide ReadSections, SectionBytes;
    match s
    case Palette(m, cs) =>
      PaletteRoundTrip(m, cs, palette, saw, t);
      assert ReadSections(t, cs, true).frames == [] + ReadSections(t, cs, true).frames;
    case Frame(m, format, rs) =>
      FrameRoundTrip(m, format, rs, palette, saw, t);
  }

  /** The reader refines the fold, on every well-formed mix of sections and any tail. */
  lemma {:induction false} ReaderRefinesFold(ss: seq<Section>, palette: seq<Rgb>, saw: bool, t: seq<Byte>)
    requires forall s :: s in ss ==> ValidSection(s)
    ensures ReadSections(SectionsBytes(ss, t), palette, saw) ==
            Prepend(Fold(ss, palette), ReadSections(t, FinalPalette(ss, palette), saw || |ss| > 0))
  {
    hide ReadSections, SectionBytes, FramesOf, PaletteAfter;
    if |ss| == 0 {
      assert ReadSections(t, palette, saw).frames == [] + ReadSections(t, palette, saw).frames;
    } else {
      var rest := SectionsBytes(ss[1..], t);
      SectionRoundTrip(ss[0], palette, saw, rest);
      ReaderRefinesFold(ss[1..], PaletteAfter(ss[0], palette), true, t);
    }
  }

  // ---- any bytes at all ----------------------------------------------------

  function RecordAt(d: seq<Byte>, format: Byte): Record
    requires Supported(format) && |d| >= PointSize(format)
  {
    var k := if Is3D(format) then 6 else 4;
    Record(FromI16BE(d), FromI16BE(d[2..]), if Is3D(format) then FromI16BE(d[4..]) else 0, d[k],
           if Indexed(format) then Index(d[k + 1]) else TrueColour(d[k + 3], d[k + 2], d[k + 1]))
  }

  function RecordsAt(d: seq<Byte>, format: Byte, n: nat): (rs: seq<Record>)
    requires Supported(format) && |d| >= PointSize(format) * n
    ensures |rs| == n && forall i :: 0 <= i < n ==> rs[i].colour.Index? == Indexed(format)
  {
    if n == 0 then [] else [RecordAt(d, format)] + RecordsAt(d[PointSize(format)..], format, n - 1)
  }

  function SectionAt(d: seq<Byte>): Section
    requires WholeSection(d)
  {
    var m := Meta(d[4..7], d[8..16], d[16..24], d[26..32]);
    if d[7] == 2 then Palette(m, ReadPalette(d[32..], Records(d)))
    else Frame(m, d[7], RecordsAt(d[32..], d[7], Records(d)))
  }

  lemma U16Bytes(s: seq<Byte>)
    requires |s| >= 2
    ensures U16BE(FromU16BE(s)) == s[..2] && I16BE(FromI16BE(s)) == s[..2]
  {}

  lemma RecordBytesAt(d: seq<Byte>, format: Byte)
    requires Supported(format) && |d| >= PointSize(format)
    ensures RecordBytes(RecordAt(d, format), format) == d[..PointSize(format)]
  {
    hide I16BE, FromI16BE;
    U16Bytes(d);
    U16Bytes(d[2..]);
    if Is3D(format) {
      U16Bytes(d[4..]);
    }
  }

  lemma TimesNext(size: nat, n: nat)
    requires n > 0
    ensures size * n == size + size * (n - 1)
  {}

  lemma {:induction false} RecordsBytesAt(d: seq<Byte>, format: Byte, n: nat)
    requires Supported(format) && |d| >= PointSize(format) * n
    ensures RecordsBytes(RecordsAt(d, format, n), format, d[PointSize(format) * n..]) == d
  {
    hide RecordBytes, RecordAt, PointSize;
    if n == 0 {
    } else {
      var size := PointSize(format);
      TimesNext(size, n);
      RecordsBytesAt(d[size..], format, n - 1);
      RecordBytesAt(d, format);
      assert d[size..][size * (n - 1)..] == d[size * n..];
      assert RecordsAt(d, format, n)[1..] == RecordsAt(d[size..], format, n - 1);
    }
  }

  lemma {:induction false} ColoursBytesAt(d: seq<Byte>, n: nat)
    requires |d| >= 3 * n
    ensures ColoursBytes(ReadPalette(d, n), d[3 * n..]) == d
  {
    if n == 0 {
    } else {
      ColoursBytesAt(d[3..], n - 1);
      assert d[3..][3 * (n - 1)..] == d[3 * n..];
      assert ReadPalette(d, n)[1..] == ReadPalette(d[3..], n - 1);
    }
  }

  lemma MetaBytesAt(d: seq<Byte>, t: seq<Byte>)
    requires |d| >= 32 && d[..4] == [73, 76, 68, 65] && d[32..] == t
    ensures MetaBytes(Meta(d[4..7], d[8..16], d[16..24], d[26..32]), d[7], Records(d), t) == d
  {
    U16Bytes(d[24..]);
    assert d[24..][..2] == d[24..26];
    assert d == d[..4] + (d[4..7] + ([d[7]] + (d[8..16] + (d[16..24] + (d[24..26] + (d[26..32] + d[32..]))))));
  }

  /** Where a whole section starts, the bytes are that section and what follows it. */
  lemma SectionThere(d: seq<Byte>)
    requires WholeSection(d)
    ensures ValidSection(SectionAt(d)) && SectionBytes(SectionAt(d), d[SectionSize(d)..]) == d
  {
    hide RecordsBytes, ColoursBytes, MetaBytes, Records, RecordsAt, ReadPalette, PointSize;
    var n := Records(d);
    MetaBytesAt(d, d[32..]);
    assert d[32..][SectionSize(d) - 32..] == d[SectionSize(d)..];
    if d[7] == 2 {
      ColoursBytesAt(d[32..], n);
    } else {
      RecordsBytesAt(d[32..], d[7], n);
    }
  }

  /** The whole sections d starts with, and the rest, which starts none. */
  function Split(d: seq<Byte>): (seq<Section>, seq<Byte>)
    decreases |d|
  {
    if !WholeSection(d) then ([], d)
    else
      var (ss, t) := Split(d[SectionSize(d)..]);
      ([SectionAt(d)] + ss, t)
  }

  lemma {:induction false} SplitJoins(d: seq<Byte>)
    ensures var (ss, t) := Split(d);
            (forall s :: s in ss ==> ValidSection(s)) && SectionsBytes(ss, t) == d && !WholeSection(t)
    decreases |d|
  {
    hide SectionBytes, SectionAt, ValidSection, Records, PointSize;
    if !WholeSection(d) {
    } else {
      SectionThere(d);
      var rest := d[SectionSize(d)..];
      SplitJoins(rest);
      var (ss, t) := Split(rest);
      assert Split(d) == ([SectionAt(d)] + ss, t);
    }
  }

  /** What the reader makes of any byte string: the fold over its whole sections, then the
      verdict on the rest. */
  lemma AnyBytesFold(d: seq<Byte>, palette: seq<Rgb>, saw: bool)
    ensures var (ss, t) := Split(d);
            && (forall s :: s in ss ==> ValidSection(s)) && SectionsBytes(ss, t) == d
            && ReadSections(d, palette, saw) == Prepend(Fold(ss, palette), StopResult(t, saw || |ss| > 0))
  {
    hide ReadSections, Fold, SectionsBytes, WholeSection, StopResult, ValidSection;
    var (ss, t) := Split(d);
    SplitJoins(d);
    ReaderRefinesFold(ss, palette, saw, t);
    StopStep(t, FinalPalette(ss, palette), saw || |ss| > 0);
  }

  /** A proper end: a zero-record header, or nothing readable after at least one section. */
  predicate Ends(t: seq<Byte>, some: bool) {
    if |t| < 32 then some else t[..4] == [73, 76, 68, 65] && Records(t) == 0
  }

  ghost predicate WellFormed(d: seq<Byte>, ss: seq<Section>, t: seq<Byte>) {
    (forall s :: s in ss ==> ValidSection(s)) && d == SectionsBytes(ss, t) && Ends(t, |ss| > 0)
  }

  /** The reader accepts exactly the well-formed streams: sections, then a proper end. */
  lemma AcceptsExactly(d: seq<Byte>)
    ensures ParseIlda(d).ok <==> exists ss, t :: WellFormed(d, ss, t)
  {
    hide ReadSections, Fold, SectionsBytes, ValidSection, Records;
    AnyBytesFold(d, DEFAULT_PALETTE, false);
    var (ss, t) := Split(d);
    SplitJoins(d);
    StopAccepts(t, |ss| > 0);
    if ParseIlda(d).ok {
      assert WellFormed(d, ss, t);
    }
    forall ss, t | WellFormed(d, ss, t) ensures ParseIlda(d).ok {
      ReaderRefinesFold(ss, DEFAULT_PALETTE, false, t);
      EndsNoSection(t, |ss| > 0);
      StopStep(t, FinalPalette(ss, DEFAULT_PALETTE), |ss| > 0);
      StopAccepts(t, |ss| > 0);
    }
  }

  lemma StopAccepts(t: seq<Byte>, some: bool)
    requires !WholeSection(t)
    ensures StopResult(t, some).ok <==> Ends(t, some)
  {}

  lemma EndsNoSection(t: seq<Byte>, some: bool)
    requires Ends(t, some)
    ensures !WholeSection(t)
  {}
}
