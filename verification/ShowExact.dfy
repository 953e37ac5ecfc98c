/** Exactly when a saved show comes back whole. */
module ShowExact {
  import opened Bytes
  import opened IldaTypes
  import opened IldaFormat
  import opened IldaNorm
  import opened IldaRoundTrip
  import opened ShowFormat
  import opened ShowRoundTrip

  /** Every frame can be counted in the 16-bit field and is not taken for the end of the stream. */
  predicate FramesCountable(frames: IldaShow) {
    forall f :: f in frames ==> 1 <= |f.points| <= 65535
  }

  /** Every frame of every cue kept and normalised, everything else as it was. */
  function Whole(cs: seq<FileCue>): seq<FileCue> {
    if |cs| == 0 then [] else [cs[0].(frames := NormShow(cs[0].frames))] + Whole(cs[1..])
  }

  lemma {:induction false} KeptIsWritten(frames: IldaShow, f: IldaFrame)
    requires f in BeforeEof(frames)
    ensures f in frames
  {
    if f == frames[0] {
    } else {
      KeptIsWritten(frames[1..], f);
    }
  }

  lemma CountableIsOk(frames: IldaShow)
    requires FramesCountable(frames)
    ensures ParseIlda(IldaBytes(frames)).ok
  {
    hide ParseIlda, IldaBytes;
    forall f | f in BeforeEof(frames) ensures f in frames { KeptIsWritten(frames, f); }
    WriteReadIlda(frames);
  }

  lemma {:induction false} RereadExactly(cs: seq<FileCue>)
    ensures RereadCues(VERSION, cs) == AllRead(Whole(cs))
            <==> forall i :: 0 <= i < |cs| ==> FramesCountable(cs[i].frames)
  {
    hide ParseIlda, IldaBytes, NormShow, FramesCountable;
    if |cs| == 0 {
    } else {
      RereadExactly(cs[1..]);
      KeptEffectsCurrent(cs[0].effects);
      NoFrameLost(cs[0].frames);
      assert (forall i :: 0 <= i < |cs| ==> FramesCountable(cs[i].frames)) <==>
             FramesCountable(cs[0].frames) && forall i :: 0 <= i < |cs[1..]| ==> FramesCountable(cs[1..][i].frames);
      assert Whole(cs)[1..] == Whole(cs[1..]);
    }
  }

  /** The cue loop keeps every frame of every cue if and only if all can be counted. */
  lemma CuesExactly(cs: seq<FileCue>, t: seq<Byte>)
    requires forall i :: 0 <= i < |cs| ==> CueLengthsFit(cs[i])
    ensures var r := ReadCues(VERSION, |cs|, At(CuesBytes(VERSION, cs, t)));
            && (r.CuesRead? ==> r.c == At(t))
            && (r.CuesRead? && r.cues == Whole(cs) <==>
                  forall i :: 0 <= i < |cs| ==> FramesCountable(cs[i].frames))
  {
    hide RereadCues, ReadCues, CueLengthsFit, FramesCountable, Whole;
    CuesReread(VERSION, cs, t);
    RereadExactly(cs);
  }

  lemma NoFrameLost(frames: IldaShow)
    ensures ParseIlda(IldaBytes(frames)).frames == NormShow(frames) <==> FramesCountable(frames)
    ensures FramesCountable(frames) ==> ParseIlda(IldaBytes(frames)).ok
  {
    hide ParseIlda, IldaBytes;
    NoFrameLostExactly(frames);
    if FramesCountable(frames) {
      CountableIsOk(frames);
    }
  }

  /** A show whose lengths and indices fit their fields loads back whole, with frames
      normalised, if and only if every frame has between 1 and 65535 points. */
  lemma SavedShowSurvivesExactly(s: FileShow, t: seq<Byte>)
    requires LengthsFit(s)
    ensures ParseShow(ShowBytes(VERSION, s, t)) == Outcome(Loaded(s.(cues := Whole(s.cues))), t)
            <==> forall i :: 0 <= i < |s.cues| ==> FramesCountable(s.cues[i].frames)
  {
    hide ParseShow, ShowBytes, LengthsFit, RereadCues, FramesCountable, Whole;
    ShowReread(VERSION, s, t);
    RereadExactly(s.cues);
  }
}
