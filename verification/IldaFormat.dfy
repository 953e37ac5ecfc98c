/** The byte layout of the ILDA Image Data Transfer Format, as the codec writes and reads it. */
module IldaFormat {
  import opened Bytes
  import opened IldaTypes

  // ---- coordinates ---------------------------------------------------------

  /** Nearest integer, halves away from zero. */
  function Round(s: real): int {
    if s >= 0.0 then (s + 0.5).Floor else -((0.5 - s).Floor)
  }

  function ToInt16(v: real): Int16 {
    var s := v * 32767.0;
    if s > 32767.0 then 32767 else if s < -32768.0 then -32768 else Round(s)
  }

  function FromInt16(v: Int16): real {
    v as real / 32767.0
  }

  // ---- names ---------------------------------------------------------------

  /** Eight bytes, cut or padded with zeros. */
  function PutName(s: seq<Byte>): (out: seq<Byte>)
    ensures |out| == 8
  {
    seq(8, i requires 0 <= i < 8 => if i < |s| then s[i] else 0)
  }

  /** Everything before the first zero byte. */
  function BeforeNul(s: seq<Byte>): seq<Byte> {
    if |s| == 0 || s[0] == 0 then [] else [s[0]] + BeforeNul(s[1..])
  }

  function StripSpaces(s: seq<Byte>): seq<Byte> {
    if |s| > 0 && s[|s| - 1] == 32 then StripSpaces(s[..|s| - 1]) else s
  }

  function ReadName(p: seq<Byte>): seq<Byte>
    requires |p| == 8
  {
    StripSpaces(BeforeNul(p))
  }

  // ---- writing -------------------------------------------------------------

  function HeaderBytes(format: Byte, name: seq<Byte>, company: seq<Byte>, records: nat, frameNumber: nat,
                       total: nat): (out: seq<Byte>)
    ensures |out| == 32
  {
    [73, 76, 68, 65, 0, 0, 0, format] + PutName(name) + PutName(company)
    + U16BE(records) + U16BE(frameNumber) + U16BE(total) + [0, 0]
  }

  function StatusByte(blanked: bool, last: bool): Byte {
    (if blanked then 64 else 0) + (if last then 128 else 0)
  }

  function PointBytes(p: IldaPoint, is3D: bool, last: bool): (out: seq<Byte>)
    ensures |out| == if is3D then 10 else 8
  {
    I16BE(ToInt16(p.x)) + I16BE(ToInt16(p.y)) + (if is3D then I16BE(ToInt16(p.z)) else [])
    + [StatusByte(p.blanked, last), p.b, p.g, p.r]
  }

  function PointsBytes(points: seq<IldaPoint>, is3D: bool): seq<Byte> {
    if |points| == 0 then []
    else PointBytes(points[0], is3D, |points| == 1) + PointsBytes(points[1..], is3D)
  }

  function FrameBytes(frame: IldaFrame, f: nat, total: nat): seq<Byte> {
    HeaderBytes(if frame.is3D then 4 else 5, frame.name, frame.company, |frame.points|, f, total)
    + PointsBytes(frame.points, frame.is3D)
  }

  /** The frames from index f on, closed by the zero-record header. */
  function StreamBytes(frames: IldaShow, f: nat, total: nat): seq<Byte> {
    if |frames| == 0 then HeaderBytes(5, [], [], 0, 0, total)
    else FrameBytes(frames[0], f, total) + StreamBytes(frames[1..], f + 1, total)
  }

  function IldaBytes(show: IldaShow): seq<Byte> {
    StreamBytes(show, 0, |show|)
  }

  // ---- reading -------------------------------------------------------------

  datatype Rgb = Rgb(r: Byte, g: Byte, b: Byte)

  datatype IldaError = NoError | MissingSignature | TruncatedPalette | UnsupportedFormat(format: Byte)
    | TruncatedPoints | TooSmall

  /** `frames` keeps what was parsed before an error. */
  datatype ParseResult = ParseResult(ok: bool, error: IldaError, frames: IldaShow)

  function Done(): ParseResult { ParseResult(true, NoError, []) }

  function Fail(e: IldaError): ParseResult { ParseResult(false, e, []) }

  predicate Supported(format: Byte) { format in {0, 1, 4, 5} }

  predicate Is3D(format: Byte) { format == 0 || format == 4 }

  predicate Indexed(format: Byte) { format == 0 || format == 1 }

  function PointSize(format: Byte): nat {
    if format == 0 then 8 else if format == 1 then 6 else if format == 4 then 10 else 8
  }

  /** The default 64-colour palette, row by row. */
  const FULL_COLOURS: seq<Rgb> := [
    Rgb(0, 0, 0), Rgb(255, 255, 255), Rgb(255, 0, 0), Rgb(255, 255, 0), Rgb(0, 255, 0),
    Rgb(0, 255, 255), Rgb(0, 0, 255), Rgb(255, 0, 255)]

  const RED_TO_YELLOW: seq<Rgb> := [
    Rgb(255, 128, 128), Rgb(255, 140, 128), Rgb(255, 151, 128), Rgb(255, 163, 128),
    Rgb(255, 174, 128), Rgb(255, 186, 128), Rgb(255, 197, 128), Rgb(255, 209, 128),
    Rgb(255, 220, 128), Rgb(255, 232, 128), Rgb(255, 243, 128), Rgb(255, 255, 128)]

  const YELLOW_TO_GREEN: seq<Rgb> := [
    Rgb(243, 255, 128), Rgb(232, 255, 128), Rgb(220, 255, 128), Rgb(209, 255, 128),
    Rgb(197, 255, 128), Rgb(186, 255, 128), Rgb(174, 255, 128), Rgb(163, 255, 128),
    Rgb(151, 255, 128), Rgb(140, 255, 128), Rgb(128, 255, 128)]

  const GREEN_TO_CYAN: seq<Rgb> := [
    Rgb(128, 255, 140), Rgb(128, 255, 151), Rgb(128, 255, 163), Rgb(128, 255, 174),
    Rgb(128, 255, 186), Rgb(128, 255, 197), Rgb(128, 255, 209), Rgb(128, 255, 220),
    Rgb(128, 255, 232), Rgb(128, 255, 243), Rgb(128, 255, 255)]

  const CYAN_TO_BLUE: seq<Rgb> := [
    Rgb(128, 243, 255), Rgb(128, 232, 255), Rgb(128, 220, 255), Rgb(128, 209, 255),
    Rgb(128, 197, 255), Rgb(128, 186, 255), Rgb(128, 174, 255), Rgb(128, 163, 255),
    Rgb(128, 151, 255), Rgb(128, 140, 255), Rgb(128, 128, 255)]

  const BLUE_TO_MAGENTA: seq<Rgb> := [
    Rgb(140, 128, 255), Rgb(151, 128, 255), Rgb(163, 128, 255), Rgb(174, 128, 255),
    Rgb(186, 128, 255), Rgb(197, 128, 255), Rgb(209, 128, 255), Rgb(220, 128, 255),
    Rgb(232, 128, 255), Rgb(243, 128, 255), Rgb(255, 128, 255)]

  const DEFAULT_PALETTE: seq<Rgb> :=
    FULL_COLOURS + RED_TO_YELLOW + YELLOW_TO_GREEN + GREEN_TO_CYAN + CYAN_TO_BLUE + BLUE_TO_MAGENTA

  /** Palette lookup with the index clamped to the last entry; black when there is no entry. */
  function Lookup(palette: seq<Rgb>, index: Byte): Rgb {
    if |palette| == 0 then Rgb(0, 0, 0)
    else palette[if index < |palette| then index else |palette| - 1]
  }

  function ReadPoint(d: seq<Byte>, format: Byte, palette: seq<Rgb>): IldaPoint
    requires Supported(format) && |d| >= PointSize(format)
  {
    var k := if Is3D(format) then 6 else 4;
    var z := if Is3D(format) then FromInt16(FromI16BE(d[4..])) else 0.0;
    var c := if Indexed(format) then Lookup(palette, d[k + 1]) else Rgb(d[k + 3], d[k + 2], d[k + 1]);
    IldaPoint(FromInt16(FromI16BE(d)), FromInt16(FromI16BE(d[2..])), z, c.r, c.g, c.b, d[k] / 64 % 2 == 1)
  }

  function ReadPoints(d: seq<Byte>, format: Byte, n: nat, palette: seq<Rgb>): (points: seq<IldaPoint>)
    requires Supported(format) && |d| >= PointSize(format) * n
    ensures |points| == n
  {
    if n == 0 then []
    else [ReadPoint(d, format, palette)] + ReadPoints(d[PointSize(format)..], format, n - 1, palette)
  }

  function ReadPalette(d: seq<Byte>, n: nat): (palette: seq<Rgb>)
    requires |d| >= 3 * n
    ensures |palette| == n
  {
    if n == 0 then [] else [Rgb(d[0], d[1], d[2])] + ReadPalette(d[3..], n - 1)
  }

  function Records(h: seq<Byte>): (n: nat)
    requires |h| >= 32
    ensures n < 65536
  {
    FromU16BE(h[24..])
  }

  lemma RecordsLocal(d: seq<Byte>, k: nat)
    requires 32 <= k <= |d|
    ensures Records(d[..k]) == Records(d)
  {
    assert d[..k][24..][0] == d[24..][0] && d[..k][24..][1] == d[24..][1];
  }

  function ReadFrame(d: seq<Byte>, palette: seq<Rgb>): IldaFrame
    requires |d| >= 32 && Supported(d[7]) && |d| >= 32 + PointSize(d[7]) * Records(d)
  {
    IldaFrame(ReadName(d[8..16]), ReadName(d[16..24]), Is3D(d[7]), ReadPoints(d[32..], d[7], Records(d), palette))
  }

  /** Sections from the start of d, with the palette in force and whether a header was seen before. */
  function ReadSections(d: seq<Byte>, palette: seq<Rgb>, sawHeader: bool): ParseResult
    decreases |d|
  {
    if |d| < 32 then (if sawHeader then Done() else Fail(TooSmall))
    else if d[..4] != [73, 76, 68, 65] then Fail(MissingSignature)
    else
      var n := Records(d);
      if n == 0 then Done()
      else if d[7] == 2 then
        if 32 + 3 * n > |d| then Fail(TruncatedPalette)
        else ReadSections(d[32 + 3 * n..], ReadPalette(d[32..], n), true)
      else if !Supported(d[7]) then Fail(UnsupportedFormat(d[7]))
      else if 32 + PointSize(d[7]) * n > |d| then Fail(TruncatedPoints)
      else
        var rest := ReadSections(d[32 + PointSize(d[7]) * n..], palette, true);
        rest.(frames := [ReadFrame(d, palette)] + rest.frames)
  }

  function ParseIlda(d: seq<Byte>): ParseResult {
    ReadSections(d, DEFAULT_PALETTE, false)
  }
}
