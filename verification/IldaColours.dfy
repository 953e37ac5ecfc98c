/** What the points of an ILDA stream mean: positions, blanking and colours, from the bytes and the
    palettes among the sections. */
module IldaColours {
  import opened Bytes
  import opened IldaTypes
  import opened IldaFormat
  import opened IldaSections

  // ---- the first header ----------------------------------------------------

  /** What the reader makes of bytes whose first section is missing, empty, of an unknown format or
      cut short. */
  lemma FirstHeader(d: seq<Byte>)
    ensures |d| < 32 ==> ParseIlda(d) == ParseResult(false, TooSmall, [])
    ensures |d| >= 32 && !(d[0] == 73 && d[1] == 76 && d[2] == 68 && d[3] == 65) ==>
              ParseIlda(d) == ParseResult(false, MissingSignature, [])
    ensures |d| >= 32 && d[0] == 73 && d[1] == 76 && d[2] == 68 && d[3] == 65 ==>
              var high: int, low: int := d[24], d[25];
              var n := high * 256 + low;
              && (n == 0 ==> ParseIlda(d) == ParseResult(true, NoError, []))
              && (n > 0 && !(d[7] == 0 || d[7] == 1 || d[7] == 2 || d[7] == 4 || d[7] == 5) ==>
                    ParseIlda(d) == ParseResult(false, UnsupportedFormat(d[7]), []))
              && (n > 0 && d[7] == 2 && |d| < 32 + 3 * n ==> ParseIlda(d) == ParseResult(false, TruncatedPalette, []))
              && (n > 0 && ((d[7] == 0 && |d| < 32 + 8 * n) || (d[7] == 1 && |d| < 32 + 6 * n)
                            || (d[7] == 4 && |d| < 32 + 10 * n) || (d[7] == 5 && |d| < 32 + 8 * n)) ==>
                    ParseIlda(d) == ParseResult(false, TruncatedPoints, []))
  {
    hide ReadPalette, ReadFrame;
    if |d| >= 32 {
      assert d[..4] == [73, 76, 68, 65] <==> d[0] == 73 && d[1] == 76 && d[2] == 68 && d[3] == 65;
      assert d[24..][0] == d[24] && d[24..][1] == d[25];
    }
  }

  // ---- the frames of a mix of sections -------------------------------------

  function FrameCount(ss: seq<Section>): nat {
    if |ss| == 0 then 0 else (if ss[0].Frame? then 1 else 0) + FrameCount(ss[1..])
  }

  lemma {:induction false} FoldAt(before: seq<Section>, s: Section, after: seq<Section>, palette: seq<Rgb>)
    requires forall x :: x in before + [s] + after ==> ValidSection(x)
    requires s.Frame?
    ensures var frames := Fold(before + [s] + after, palette);
            FrameCount(before) < |frames|
            && frames[FrameCount(before)] == FramesOf(s, FinalPalette(before, palette))[0]
  {
    var ss := before + [s] + after;
    if |before| == 0 {
      assert ss[0] == s;
    } else {
      assert ss[1..] == before[1..] + [s] + after;
      assert forall x :: x in ss[1..] ==> x in ss;
      FoldAt(before[1..], s, after, PaletteAfter(before[0], palette));
    }
  }

  lemma {:induction false} FinalPaletteConcat(a: seq<Section>, b: seq<Section>, palette: seq<Rgb>)
    ensures FinalPalette(a + b, palette) == FinalPalette(b, FinalPalette(a, palette))
  {
    if |a| == 0 {
      assert a + b == b;
    } else {
      assert (a + b)[1..] == a[1..] + b;
      FinalPaletteConcat(a[1..], b, PaletteAfter(a[0], palette));
    }
  }

  lemma {:induction false} PaletteKept(ss: seq<Section>, palette: seq<Rgb>)
    requires forall s :: s in ss ==> s.Frame?
    ensures FinalPalette(ss, palette) == palette
  {
    if |ss| == 0 {
    } else {
      assert ss[0] in ss;
      PaletteKept(ss[1..], palette);
    }
  }

  /** The point made of record r when `palette` is in force. */
  ghost predicate Means(p: IldaPoint, r: Record, is3D: bool, palette: seq<Rgb>) {
    && p.x == r.x as real / 32767.0 && p.y == r.y as real / 32767.0
    && p.z == (if is3D then r.z as real / 32767.0 else 0.0)
    && (p.blanked <==> 64 <= r.status % 128)
    && (r.colour.TrueColour? ==> p.r == r.colour.r && p.g == r.colour.g && p.b == r.colour.b)
    && (r.colour.Index? && |palette| > 0 ==>
          Rgb(p.r, p.g, p.b) == if r.colour.i < |palette| then palette[r.colour.i] else palette[|palette| - 1])
  }

  lemma {:induction false} PointsMean(rs: seq<Record>, format: Byte, palette: seq<Rgb>, i: nat)
    requires i < |rs|
    ensures Means(PointsOf(rs, format, palette)[i], rs[i], format == 0 || format == 4, palette)
  {
    if i == 0 {
    } else {
      PointsMean(rs[1..], format, palette, i - 1);
    }
  }

  lemma FrameMeans(before: seq<Section>, s: Section, after: seq<Section>, t: seq<Byte>, i: nat, palette: seq<Rgb>)
    requires forall x :: x in before + [s] + after ==> ValidSection(x)
    requires s.Frame? && i < |s.records| && palette == FinalPalette(before, DEFAULT_PALETTE)
    ensures var frames := ParseIlda(SectionsBytes(before + [s] + after, t)).frames;
            && FrameCount(before) < |frames| && i < |frames[FrameCount(before)].points|
            && Means(frames[FrameCount(before)].points[i], s.records[i], s.format == 0 || s.format == 4, palette)
  {
    hide ReadSections, SectionsBytes, Means;
    var ss := before + [s] + after;
    ReaderRefinesFold(ss, DEFAULT_PALETTE, false, t);
    FoldAt(before, s, after, DEFAULT_PALETTE);
    assert s in ss;
    PointsMean(s.records, s.format, palette, i);
  }

  lemma PaletteInForce(before: seq<Section>, m: Meta, colours: seq<Rgb>, between: seq<Section>)
    requires forall x :: x in between ==> x.Frame?
    ensures FinalPalette(before + [Palette(m, colours)] + between, DEFAULT_PALETTE) == colours
  {
    var p := [Palette(m, colours)];
    FinalPaletteConcat(before + p, between, DEFAULT_PALETTE);
    FinalPaletteConcat(before, p, DEFAULT_PALETTE);
    assert FinalPalette(p, FinalPalette(before, DEFAULT_PALETTE)) == colours;
    PaletteKept(between, colours);
  }

  /** Among any sections, a point of a frame is where its record says, blanked when the blanking bit
      of its status says, and, when indexed, of the colour at its index in the latest palette
      before the frame, an index past its end meaning its last colour. */
  lemma ColouredByLatestPalette(before: seq<Section>, m: Meta, colours: seq<Rgb>, between: seq<Section>, s: Section,
                                after: seq<Section>, t: seq<Byte>, i: nat)
    requires forall x :: x in before + [Palette(m, colours)] + between + [s] + after ==> ValidSection(x)
    requires (forall x :: x in between ==> x.Frame?) && s.Frame? && i < |s.records| && |colours| > 0
    ensures var ss := before + [Palette(m, colours)] + between + [s] + after;
            var frames := ParseIlda(SectionsBytes(ss, t)).frames;
            var k := FrameCount(before + [Palette(m, colours)] + between);
            && k < |frames| && i < |frames[k].points|
            && var p, r := frames[k].points[i], s.records[i];
               && p.x == r.x as real / 32767.0 && p.y == r.y as real / 32767.0
               && (p.blanked <==> 64 <= r.status % 128)
               && (r.colour.TrueColour? ==> p.r == r.colour.r && p.g == r.colour.g && p.b == r.colour.b)
               && (r.colour.Index? ==>
                     var last := |colours| - 1;
                     Rgb(p.r, p.g, p.b) == colours[if r.colour.i < last then r.colour.i else last])
  {
    hide ReadSections, SectionsBytes, FinalPalette, FrameCount;
    var head := before + [Palette(m, colours)] + between;
    var ss := before + [Palette(m, colours)] + between + [s] + after;
    assert ss == head + [s] + after;
    assert Palette(m, colours) in ss;
    PaletteInForce(before, m, colours, between);
    FrameMeans(head, s, after, t, i, colours);
  }

  /** With no palette before it, an index means an entry of the default table, 63 at most. */
  lemma ColouredByDefault(before: seq<Section>, s: Section, after: seq<Section>, t: seq<Byte>, i: nat)
    requires forall x :: x in before + [s] + after ==> ValidSection(x)
    requires (forall x :: x in before ==> x.Frame?) && s.Frame? && i < |s.records| && s.records[i].colour.Index?
    ensures var frames := ParseIlda(SectionsBytes(before + [s] + after, t)).frames;
            && |before| < |frames| && i < |frames[|before|].points|
            && var p, index := frames[|before|].points[i], s.records[i].colour.i;
               Rgb(p.r, p.g, p.b) == DEFAULT_PALETTE[if index < 64 then index else 63]
  {
    hide ReadSections, SectionsBytes;
    PaletteKept(before, DEFAULT_PALETTE);
    AllFrames(before);
    FrameMeans(before, s, after, t, i, DEFAULT_PALETTE);
  }

  lemma {:induction false} AllFrames(ss: seq<Section>)
    requires forall s :: s in ss ==> s.Frame?
    ensures FrameCount(ss) == |ss|
  {
    if |ss| == 0 {
    } else {
      assert ss[0] in ss;
      AllFrames(ss[1..]);
    }
  }

  /** How far a ramp has come after j of its eleven even steps from 128 to 255. */
  function Step(j: nat): (s: nat)
    requires j <= 11
    ensures s <= 127
  {
    (254 * j + 11) / 22
  }

  /** Step j is the nearest whole number to 127 * j / 11. */
  lemma StepIsNearest(j: nat)
    requires j <= 11
    ensures 2 * 127 * j - 11 < 22 * Step(j) <= 2 * 127 * j + 11
  {}

  /** The default table: black, white and the six full colours, then the pale colours once round
      the wheel, one channel at a time moving between 128 and 255 in eleven even steps. */
  lemma DefaultTable(j: nat)
    requires j <= 11
    ensures |DEFAULT_PALETTE| == 64
    ensures DEFAULT_PALETTE[..8] == [Rgb(0, 0, 0), Rgb(255, 255, 255), Rgb(255, 0, 0), Rgb(255, 255, 0),
                                     Rgb(0, 255, 0), Rgb(0, 255, 255), Rgb(0, 0, 255), Rgb(255, 0, 255)]
    ensures DEFAULT_PALETTE[8 + j] == Rgb(255, 128 + Step(j), 128)
    ensures DEFAULT_PALETTE[19 + j] == Rgb(255 - Step(j), 255, 128)
    ensures DEFAULT_PALETTE[30 + j] == Rgb(128, 255, 128 + Step(j))
    ensures DEFAULT_PALETTE[41 + j] == Rgb(128, 255 - Step(j), 255)
    ensures DEFAULT_PALETTE[52 + j] == Rgb(128 + Step(j), 128, 255)
  {
    assert DEFAULT_PALETTE[..8] == FULL_COLOURS;
    assert DEFAULT_PALETTE[8 + j] == RED_TO_YELLOW[j];
    Rows(j);
    if j == 0 {
      assert DEFAULT_PALETTE[19] == RED_TO_YELLOW[11] && DEFAULT_PALETTE[30] == YELLOW_TO_GREEN[10];
      assert DEFAULT_PALETTE[41] == GREEN_TO_CYAN[10] && DEFAULT_PALETTE[52] == CYAN_TO_BLUE[10];
    } else {
      assert DEFAULT_PALETTE[19 + j] == YELLOW_TO_GREEN[j - 1] && DEFAULT_PALETTE[30 + j] == GREEN_TO_CYAN[j - 1];
      assert DEFAULT_PALETTE[41 + j] == CYAN_TO_BLUE[j - 1] && DEFAULT_PALETTE[52 + j] == BLUE_TO_MAGENTA[j - 1];
    }
  }

  lemma Rows(j: nat)
    requires j <= 11
    ensures RED_TO_YELLOW[j] == Rgb(255, 128 + Step(j), 128)
    ensures j > 0 ==>
      && YELLOW_TO_GREEN[j - 1] == Rgb(255 - Step(j), 255, 128)
      && GREEN_TO_CYAN[j - 1] == Rgb(128, 255, 128 + Step(j))
      && CYAN_TO_BLUE[j - 1] == Rgb(128, 255 - Step(j), 255)
      && BLUE_TO_MAGENTA[j - 1] == Rgb(128 + Step(j), 128, 255)
  {
    assert j == 0 || j == 1 || j == 2 || j == 3 || j == 4 || j == 5 || j == 6 || j == 7 || j == 8 || j == 9
           || j == 10 || j == 11;
  }
}
