/** What a frame becomes by being written and read back, and when it is already there. */
module IldaNorm {
  import opened Bytes
  import opened IldaTypes
  import opened IldaFormat
  import opened IldaSections

  function NormName(s: seq<Byte>): seq<Byte> {
    StripSpaces(BeforeNul(if |s| <= 8 then s else s[..8]))
  }

  function NormPoint(p: IldaPoint, is3D: bool): IldaPoint {
    p.(x := FromInt16(ToInt16(p.x)), y := FromInt16(ToInt16(p.y)),
       z := if is3D then FromInt16(ToInt16(p.z)) else 0.0)
  }

  function NormPoints(ps: seq<IldaPoint>, is3D: bool): (qs: seq<IldaPoint>)
    ensures |qs| == |ps|
  {
    if |ps| == 0 then [] else [NormPoint(ps[0], is3D)] + NormPoints(ps[1..], is3D)
  }

  function NormFrame(f: IldaFrame): IldaFrame {
    IldaFrame(NormName(f.name), NormName(f.company), f.is3D, NormPoints(f.points, f.is3D))
  }

  function NormShow(s: IldaShow): IldaShow {
    if |s| == 0 then [] else [NormFrame(s[0])] + NormShow(s[1..])
  }

  /** A frame whose 16-bit point count comes out zero reads back as the end of the stream. */
  predicate ReadsAsEof(f: IldaFrame) {
    |f.points| % 65536 == 0
  }

  function BeforeEof(s: IldaShow): IldaShow {
    if |s| == 0 || ReadsAsEof(s[0]) then [] else [s[0]] + BeforeEof(s[1..])
  }

  /** No frame ahead of the first end marker overflows the 16-bit point count. */
  predicate CountsFit(s: IldaShow) {
    forall f :: f in BeforeEof(s) ==> |f.points| <= 65535
  }

  // ---- coordinates ---------------------------------------------------------

  /** Every 16-bit coordinate survives decoding and re-encoding. */
  lemma QuantiseExact(v: Int16)
    ensures ToInt16(FromInt16(v)) == v
  {}

  /** Quantising moves an in-range coordinate by at most half a step. */
  lemma QuantiseError(v: real)
    requires -1.0 <= v <= 1.0
    ensures -1.0 / 65534.0 <= FromInt16(ToInt16(v)) - v <= 1.0 / 65534.0
  {}

  /** In range the code is the nearest one, halves going away from zero; out of range it is the end
      of the range on that side, the lower one being reached a step later. */
  lemma QuantiseNearest(v: real, c: int)
    ensures v >= 1.0 ==> ToInt16(v) == 32767
    ensures v * 32767.0 <= -32768.0 ==> ToInt16(v) == -32768
    ensures -32768.0 <= v * 32767.0 <= 32767.0 && v >= 0.0 ==>
      (ToInt16(v) == c <==> c as real - 0.5 <= v * 32767.0 < c as real + 0.5)
    ensures -32768.0 <= v * 32767.0 <= 32767.0 && v <= 0.0 ==>
      (ToInt16(v) == c <==> c as real - 0.5 < v * 32767.0 <= c as real + 0.5)
  {
    var s := v * 32767.0;
    assert v >= 0.0 <==> s >= 0.0;
    if 0.0 <= s <= 32767.0 {
      FloorIs(s + 0.5, c);
    }
    if -32768.0 <= s <= 0.0 {
      FloorIs(0.5 - s, -c);
      FloorIs(s + 0.5, 0);
    }
  }

  lemma FloorIs(x: real, c: int)
    ensures x.Floor == c <==> c as real <= x < c as real + 1.0
  {}

  // ---- names ---------------------------------------------------------------

  predicate CleanName(s: seq<Byte>) {
    |s| <= 8 && 0 !in s && (|s| > 0 ==> s[|s| - 1] != 32)
  }

  lemma {:induction false} BeforeNulFacts(s: seq<Byte>)
    ensures BeforeNul(s) <= s && 0 !in BeforeNul(s)
    ensures |BeforeNul(s)| < |s| ==> s[|BeforeNul(s)|] == 0
  {
    if |s| == 0 || s[0] == 0 {
    } else {
      BeforeNulFacts(s[1..]);
    }
  }

  lemma {:induction false} StripFacts(s: seq<Byte>)
    ensures StripSpaces(s) <= s && forall i :: |StripSpaces(s)| <= i < |s| ==> s[i] == 32
    ensures |StripSpaces(s)| > 0 ==> StripSpaces(s)[|StripSpaces(s)| - 1] != 32
  {
    if |s| == 0 || s[|s| - 1] != 32 {
    } else {
      StripFacts(s[..|s| - 1]);
    }
  }

  lemma {:induction false} BeforeNulCut(s: seq<Byte>, k: nat)
    requires k <= |s| && 0 !in s[..k] && (k < |s| ==> s[k] == 0)
    ensures BeforeNul(s) == s[..k]
  {
    if k == 0 {
    } else {
      assert s[0] in s[..k];
      assert s[1..][..k - 1] == s[..k][1..];
      BeforeNulCut(s[1..], k - 1);
    }
  }

  /** Writing a name and reading it back cuts it to eight bytes, then at the first zero,
      then drops trailing spaces. */
  lemma NameRoundTrip(s: seq<Byte>)
    ensures ReadName(PutName(s)) == NormName(s)
  {
    var c := if |s| <= 8 then s else s[..8];
    BeforeNulFacts(c);
    var k := |BeforeNul(c)|;
    assert PutName(s)[..k] == c[..k] == BeforeNul(c);
    BeforeNulCut(PutName(s), k);
  }

  /** What a name becomes: of its first eight bytes those before the first zero, k of them, less the
      trailing spaces among them. */
  lemma NormNameExactly(s: seq<Byte>) returns (k: nat)
    ensures k <= |s| && k <= 8 && (k == |s| || k == 8 || s[k] == 0) && 0 !in s[..k]
    ensures var r := NormName(s);
            && r <= s[..k] && (forall i :: |r| <= i < k ==> s[i] == 32)
            && (|r| > 0 ==> r[|r| - 1] != 32)
  {
    var c := if |s| <= 8 then s else s[..8];
    BeforeNulFacts(c);
    StripFacts(BeforeNul(c));
    k := |BeforeNul(c)|;
    assert BeforeNul(c) == s[..k];
  }

  lemma ReadNameClean(p: seq<Byte>)
    requires |p| == 8
    ensures CleanName(ReadName(p))
  {
    BeforeNulFacts(p);
    StripFacts(BeforeNul(p));
    var s := ReadName(p);
    forall i | 0 <= i < |s| ensures s[i] != 0 { assert s[i] == BeforeNul(p)[i]; }
  }

  lemma CleanNameFixed(s: seq<Byte>)
    requires CleanName(s)
    ensures NormName(s) == s
  {
    BeforeNulCut(s, |s|);
    assert s[..|s|] == s;
  }

  // ---- frames the reader can produce ---------------------------------------

  /** Already in the form a write and a read leave it. */
  predicate Canonical(f: IldaFrame) {
    1 <= |f.points| <= 65535 && NormFrame(f) == f
  }

  predicate AllCanonical(s: IldaShow) {
    forall i :: 0 <= i < |s| ==> Canonical(s[i])
  }

  lemma {:induction false} ReadPointsFixed(d: seq<Byte>, format: Byte, n: nat, palette: seq<Rgb>)
    requires Supported(format) && |d| >= PointSize(format) * n
    ensures NormPoints(ReadPoints(d, format, n, palette), Is3D(format)) == ReadPoints(d, format, n, palette)
  {
    hide ToInt16, FromInt16, Lookup;
    if n == 0 {
    } else {
      QuantiseExact(FromI16BE(d));
      QuantiseExact(FromI16BE(d[2..]));
      if Is3D(format) {
        QuantiseExact(FromI16BE(d[4..]));
      }
      ReadPointsFixed(d[PointSize(format)..], format, n - 1, palette);
    }
  }

  lemma ReadFrameCanonical(d: seq<Byte>, palette: seq<Rgb>)
    requires |d| >= 32 && Supported(d[7]) && |d| >= 32 + PointSize(d[7]) * Records(d) && Records(d) > 0
    ensures Canonical(ReadFrame(d, palette))
  {
    hide ReadPoints, ReadName, NormName, NormPoints, Records, PointSize;
    ReadPointsFixed(d[32..], d[7], Records(d), palette);
    ReadNameClean(d[8..16]);
    ReadNameClean(d[16..24]);
    CleanNameFixed(ReadName(d[8..16]));
    CleanNameFixed(ReadName(d[16..24]));
  }

  /** Whatever the bytes, the reader only produces canonical frames. */
  lemma {:induction false} ReaderCanonical(d: seq<Byte>, palette: seq<Rgb>, saw: bool)
    ensures AllCanonical(ReadSections(d, palette, saw).frames)
    decreases |d|
  {
    hide ReadSections, ReadPalette, Canonical, ReadFrame, Records, Supported, PointSize;
    if !WholeSection(d) {
      StopStep(d, palette, saw);
    } else if d[7] == 2 {
      PaletteStep(d, palette, saw);
      ReaderCanonical(d[SectionSize(d)..], ReadPalette(d[32..], Records(d)), true);
    } else {
      FrameStep(d, palette, saw);
      ReaderCanonical(d[SectionSize(d)..], palette, true);
      ReadFrameCanonical(d, palette);
    }
  }

  lemma {:induction false} CanonicalFixed(s: IldaShow)
    requires AllCanonical(s)
    ensures NormShow(s) == s && BeforeEof(s) == s && CountsFit(s)
  {
    hide NormFrame;
    if |s| == 0 {
    } else {
      assert Canonical(s[0]);
      assert s == [s[0]] + s[1..];
      CanonicalFixed(s[1..]);
      forall f | f in s ensures |f.points| <= 65535 {
        var i :| 0 <= i < |s| && s[i] == f;
        assert Canonical(s[i]);
      }
    }
  }

  lemma {:induction false} NormPointsCanonical(ps: seq<IldaPoint>, is3D: bool)
    ensures NormPoints(NormPoints(ps, is3D), is3D) == NormPoints(ps, is3D)
  {
    hide ToInt16, FromInt16;
    if |ps| == 0 {
    } else {
      QuantiseExact(ToInt16(ps[0].x));
      QuantiseExact(ToInt16(ps[0].y));
      QuantiseExact(ToInt16(ps[0].z));
      NormPointsCanonical(ps[1..], is3D);
    }
  }

  /** Normalising twice is normalising once. */
  lemma NormIdempotent(f: IldaFrame)
    ensures NormFrame(NormFrame(f)) == NormFrame(f)
  {
    hide NormName, NormPoints;
    NormPointsCanonical(f.points, f.is3D);
    NameRoundTrip(f.name);
    NameRoundTrip(f.company);
    ReadNameClean(PutName(f.name));
    ReadNameClean(PutName(f.company));
    CleanNameFixed(NormName(f.name));
    CleanNameFixed(NormName(f.company));
  }
}
