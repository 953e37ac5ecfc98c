/** The preview seqlock: one writer and one reader over a shared sequence counter, count
    and point array, every shared load and store being one step of an interleaving. */
module SharedTelemetry {
  import opened Bytes

  const MAX_PREVIEW_POINTS := 4096
  const ATTEMPTS := 8
  const WRAP := 0x1_0000_0000
  const FIELDS := 5

  /** The five floats of a point, as bit patterns. */
  datatype PreviewPoint = PreviewPoint(x: U32, y: U32, r: U32, g: U32, b: U32)

  type Points = seq<PreviewPoint>

  function Field(p: PreviewPoint, f: nat): U32 {
    if f == 0 then p.x else if f == 1 then p.y else if f == 2 then p.r else if f == 3 then p.g else p.b
  }

  function SetField(p: PreviewPoint, f: nat, v: U32): PreviewPoint {
    if f == 0 then p.(x := v) else if f == 1 then p.(y := v) else if f == 2 then p.(r := v)
    else if f == 3 then p.(g := v) else p.(b := v)
  }

  /** Float number k of a point array, counting five to a point. */
  function Cell(ps: Points, k: nat): U32
    requires k < FIELDS * |ps|
  {
    Field(ps[k / FIELDS], k % FIELDS)
  }

  function SetCell(ps: Points, k: nat, v: U32): (qs: Points)
    requires k < FIELDS * |ps|
    ensures |qs| == |ps|
  {
    ps[k / FIELDS := SetField(ps[k / FIELDS], k % FIELDS, v)]
  }

  function Clamp(n: nat): nat {
    if n > MAX_PREVIEW_POINTS then MAX_PREVIEW_POINTS else n
  }

  // ---- 32-bit wrap-around --------------------------------------------------

  function Word(n: int): U32 { n % WRAP }

  lemma WordAdd(n: int, d: int)
    ensures Word(Word(n) + d) == Word(n + d)
  {}

  lemma WordParity(n: int)
    ensures Word(n) % 2 == n % 2
  {}

  lemma WordSmall(n: int)
    requires 0 <= n < WRAP
    ensures Word(n) == n
  {}

  lemma WordWrap(n: int)
    ensures Word(n + WRAP) == Word(n)
  {}

  lemma WordInjective(a: int, b: int)
    requires 0 <= a - b < WRAP && Word(a) == Word(b)
    ensures a == b
  {}

  // ---- the interleaved machine ---------------------------------------------

  datatype Shared = Shared(previewSeq: U32, previewCount: U32, previewPoints: Points)

  datatype Writer =
    | Idle
    | SeqLoaded(frame: Points, s: U32)           // about to enter the write section
    | Storing(frame: Points, s: U32, k: nat)     // inside it, k floats stored
    | CountStored(frame: Points, s: U32)         // about to leave it

  datatype Reader =
    | Resting
    | Attempt(n: nat)                            // about to load the sequence
    | SeqSeen(n: nat, s1: U32)                   // about to load the count
    | Copying(n: nat, s1: U32, count: nat, k: nat)
    | Accepted(count: nat, ahead: nat)           // ahead: frames published since s1 was loaded
    | GaveUp

  /** `published`, `base` and `callBase` record history: all frames published so far (the
      first is the initial empty one), the newest when s1 was loaded, and the newest when
      the call began. No step reads them. */
  datatype State = State(mem: Shared, writer: Writer, reader: Reader, out: Points,
                         published: seq<Points>, base: nat, callBase: nat)

  datatype Step = Publish(points: Points) | WriterMove | Call(out: Points) | ReaderMove

  function Newest(s: State): int { |s.published| - 1 }

  function WriterNext(s: State): State {
    match s.writer
    case Idle => s
    case SeqLoaded(frame, q) =>
      s.(mem := s.mem.(previewSeq := Word(q + 1)), writer := Storing(frame, q, 0))
    case Storing(frame, q, k) =>
      if k < FIELDS * |frame| && k < FIELDS * |s.mem.previewPoints| then
        s.(mem := s.mem.(previewPoints := SetCell(s.mem.previewPoints, k, Cell(frame, k))),
           writer := Storing(frame, q, k + 1))
      else s.(mem := s.mem.(previewCount := Word(|frame|)), writer := CountStored(frame, q))
    case CountStored(frame, q) =>
      s.(mem := s.mem.(previewSeq := Word(q + 2)), writer := Idle, published := s.published + [frame])
  }

  function NextAttempt(n: nat): Reader {
    if n + 1 < ATTEMPTS then Attempt(n + 1) else GaveUp
  }

  function ReaderNext(s: State): State {
    match s.reader
    case Resting => s
    case Attempt(n) =>
      if s.mem.previewSeq % 2 == 1 then s.(reader := NextAttempt(n))
      else s.(reader := SeqSeen(n, s.mem.previewSeq), base := if |s.published| > 0 then |s.published| - 1 else 0)
    case SeqSeen(n, s1) => s.(reader := Copying(n, s1, Clamp(s.mem.previewCount), 0))
    case Copying(n, s1, count, k) =>
      if k < FIELDS * count then
        if k < FIELDS * |s.out| && k < FIELDS * |s.mem.previewPoints| then
          s.(out := SetCell(s.out, k, Cell(s.mem.previewPoints, k)), reader := Copying(n, s1, count, k + 1))
        else s
      else if s1 == s.mem.previewSeq then
        s.(reader := Accepted(count, if Newest(s) >= s.base then Newest(s) - s.base else 0))
      else s.(reader := NextAttempt(n))
    case Accepted(_, _) => s
    case GaveUp => s
  }

  /** One step of one of the two threads; a step that is not enabled changes nothing. */
  function Next(s: State, e: Step): State {
    match e
    case Publish(points) =>
      if s.writer.Idle? then s.(writer := SeqLoaded(points[..Clamp(|points|)], s.mem.previewSeq)) else s
    case WriterMove => WriterNext(s)
    case Call(out) =>
      if (s.reader.Resting? || s.reader.Accepted? || s.reader.GaveUp?) && |out| == MAX_PREVIEW_POINTS then
        s.(reader := Attempt(0), out := out, callBase := if |s.published| > 0 then |s.published| - 1 else 0)
      else s
    case ReaderMove => ReaderNext(s)
  }

  function Run(s: State, steps: seq<Step>): State
    decreases |steps|
  {
    if |steps| == 0 then s else Run(Next(s, steps[0]), steps[1..])
  }

  const NO_POINT := PreviewPoint(0, 0, 0, 0, 0)

  function Blank(): Points {
    seq(MAX_PREVIEW_POINTS, i => NO_POINT)
  }

  function Init(): State {
    State(Shared(0, 0, Blank()), Idle, Resting, Blank(), [[]], 0, 0)
  }

  // ---- the invariant -------------------------------------------------------

  ghost predicate InWrite(w: Writer) { w.Storing? || w.CountStored? }

  /** Twice the newest frame's number, plus one inside a write: what the counter would be unwrapped. */
  ghost function Clock(s: State): int {
    2 * Newest(s) + if InWrite(s.writer) then 1 else 0
  }

  /** The first k floats of ps are those of frame. */
  ghost predicate Agree(ps: Points, frame: Points, k: nat) {
    && k <= FIELDS * |ps| && k <= FIELDS * |frame|
    && forall c :: 0 <= c < k ==> Cell(ps, c) == Cell(frame, c)
  }

  ghost predicate Holds(m: Shared, frame: Points) {
    m.previewCount == |frame| && Agree(m.previewPoints, frame, FIELDS * |frame|)
  }

  ghost predicate WriterInv(s: State) {
    && |s.published| >= 1
    && (forall i :: 0 <= i < |s.published| ==> |s.published[i]| <= MAX_PREVIEW_POINTS)
    && |s.mem.previewPoints| == MAX_PREVIEW_POINTS
    && s.mem.previewSeq == Word(Clock(s))
    && (!InWrite(s.writer) ==> Holds(s.mem, s.published[Newest(s)]))
    && (s.writer.Idle? || (|s.writer.frame| <= MAX_PREVIEW_POINTS && s.writer.s == Word(2 * Newest(s))))
    && (s.writer.Storing? ==> Agree(s.mem.previewPoints, s.writer.frame, s.writer.k))
    && (s.writer.CountStored? ==> Holds(s.mem, s.writer.frame))
  }

  ghost predicate ReaderInv(s: State) {
    && |s.out| == MAX_PREVIEW_POINTS
    && s.callBase <= Newest(s)
    && (s.reader.SeqSeen? || s.reader.Copying? || s.reader.Accepted? ==> s.callBase <= s.base <= Newest(s))
    && (s.reader.SeqSeen? || s.reader.Copying? ==> s.reader.s1 == Word(2 * s.base) && Clock(s) >= 2 * s.base)
    && (s.reader.Copying? ==> s.reader.count <= MAX_PREVIEW_POINTS)
    && (s.reader.Copying? && Clock(s) == 2 * s.base ==>
          s.reader.count == |s.published[s.base]| && Agree(s.out, s.published[s.base], s.reader.k))
    && (s.reader.Accepted? ==> AcceptedWhole(s))
  }

  /** The accepted snapshot is the whole frame, or the counter went all the way round. */
  ghost predicate AcceptedWhole(s: State) {
    s.reader.Accepted? && s.base < |s.published| &&
    (s.reader.ahead < WRAP / 2 ==>
       && s.reader.ahead == 0
       && s.reader.count == |s.published[s.base]| <= |s.out|
       && s.out[..s.reader.count] == s.published[s.base])
  }

  lemma AgreeZero(ps: Points, frame: Points)
    ensures Agree(ps, frame, 0)
  {}

  lemma AgreeBound(ps: Points, frame: Points, k: nat)
    requires Agree(ps, frame, k)
    ensures k <= FIELDS * |ps| && k <= FIELDS * |frame|
  {}

  lemma AgreeIsPrefix(ps: Points, frame: Points)
    requires |frame| <= |ps| && Agree(ps, frame, FIELDS * |frame|)
    ensures ps[..|frame|] == frame
  {
    forall i | 0 <= i < |frame| ensures ps[i] == frame[i] {
      assert Cell(ps, 5 * i) == Cell(frame, 5 * i);
      assert Cell(ps, 5 * i + 1) == Cell(frame, 5 * i + 1);
      assert Cell(ps, 5 * i + 2) == Cell(frame, 5 * i + 2);
      assert Cell(ps, 5 * i + 3) == Cell(frame, 5 * i + 3);
      assert Cell(ps, 5 * i + 4) == Cell(frame, 5 * i + 4);
    }
  }

  lemma AgreeStore(ps: Points, frame: Points, k: nat)
    requires Agree(ps, frame, k) && k < FIELDS * |frame| && k < FIELDS * |ps|
    ensures Agree(SetCell(ps, k, Cell(frame, k)), frame, k + 1)
  {}

  lemma PublishKeeps(s: State, points: Points)
    requires WriterInv(s) && ReaderInv(s)
    ensures var s' := Next(s, Publish(points)); WriterInv(s') && ReaderInv(s')
  {
    hide Word, Agree, WriterNext, ReaderNext;
  }

  lemma CallKeeps(s: State, out: Points)
    requires WriterInv(s) && ReaderInv(s)
    ensures var s' := Next(s, Call(out)); WriterInv(s') && ReaderInv(s')
  {
    hide Word, Agree, WriterNext, ReaderNext, AcceptedWhole;
  }

  /** The writer never disturbs what the reader knows: its moves only advance the clock. */
  lemma ClockAdvances(s: State, s': State)
    requires ReaderInv(s)
    requires s'.reader == s.reader && s'.out == s.out && s'.base == s.base && s'.callBase == s.callBase
    requires s.published <= s'.published && Clock(s') >= Clock(s)
    ensures ReaderInv(s')
  {
    hide Word, Agree;
  }

  lemma WriterStepKeeps(s: State)
    requires WriterInv(s) && ReaderInv(s)
    ensures WriterInv(WriterNext(s)) && ReaderInv(WriterNext(s))
  {
    hide Word, Agree, ReaderInv, ReaderNext, SetCell, Cell;
    var s' := WriterNext(s);
    ClockAdvances(s, s');
    match s.writer
    case Idle =>
    case SeqLoaded(frame, q) =>
      WordAdd(2 * Newest(s), 1);
      AgreeZero(s'.mem.previewPoints, frame);
    case Storing(frame, q, k) =>
      AgreeBound(s.mem.previewPoints, frame, k);
      if k < FIELDS * |frame| {
        AgreeStore(s.mem.previewPoints, frame, k);
      } else {
        WordSmall(|frame|);
      }
    case CountStored(frame, q) =>
      WordAdd(2 * Newest(s), 2);
  }

  lemma CopyStepKeeps(s: State)
    requires WriterInv(s) && ReaderInv(s) && s.reader.Copying? && s.reader.k < FIELDS * s.reader.count
    ensures ReaderInv(ReaderNext(s))
  {}

  lemma AcceptStepKeeps(s: State)
    requires WriterInv(s) && ReaderInv(s) && s.reader.Copying? && s.reader.k >= FIELDS * s.reader.count
    ensures ReaderInv(ReaderNext(s))
  {
    hide Word, Cell;
    if s.reader.s1 == s.mem.previewSeq {
      WordParity(Clock(s));
      WordParity(2 * s.base);
      assert !InWrite(s.writer);
      if Newest(s) - s.base < WRAP / 2 {
        WordInjective(Clock(s), 2 * s.base);
        var frame := s.published[s.base];
        assert Agree(s.out, frame, FIELDS * |frame|);
        AgreeIsPrefix(s.out, frame);
      }
    }
  }

  lemma ReaderStepKeeps(s: State)
    requires WriterInv(s) && ReaderInv(s)
    ensures WriterInv(ReaderNext(s)) && ReaderInv(ReaderNext(s))
  {
    hide Word, Agree, SetCell, Cell;
    match s.reader
    case Resting =>
    case Attempt(n) =>
      WordParity(Clock(s));
    case SeqSeen(n, s1) =>
      AgreeZero(s.out, s.published[s.base]);
    case Copying(n, s1, count, k) =>
      if k < FIELDS * count {
        CopyStepKeeps(s);
      } else {
        AcceptStepKeeps(s);
      }
    case Accepted(_, _) =>
    case GaveUp =>
  }

  lemma {:induction false} RunKeeps(s: State, steps: seq<Step>)
    requires WriterInv(s) && ReaderInv(s)
    ensures WriterInv(Run(s, steps)) && ReaderInv(Run(s, steps))
    decreases |steps|
  {
    hide WriterInv, ReaderInv, WriterNext, ReaderNext;
    if |steps| == 0 {
    } else {
      match steps[0] {
        case WriterMove => WriterStepKeeps(s);
        case ReaderMove => ReaderStepKeeps(s);
        case Publish(points) => PublishKeeps(s, points);
        case Call(out) => CallKeeps(s, out);
      }
      RunKeeps(Next(s, steps[0]), steps[1..]);
    }
  }

  /** In every interleaving from start-up, an accepted snapshot whose attempt saw fewer than
      2^31 publications is exactly the frame published at the sequence it loaded, never a mix;
      that frame was the newest throughout the attempt and no older than the call. */
  lemma NoTornSnapshot(steps: seq<Step>)
    ensures var s := Run(Init(), steps);
            s.reader.Accepted? && s.reader.ahead < 2147483648 ==>
              && s.callBase <= s.base < |s.published| && s.reader.ahead == 0
              && s.reader.count == |s.published[s.base]| <= |s.out|
              && s.out[..s.reader.count] == s.published[s.base]
  {
    RunKeeps(Init(), steps);
  }

  // ---- an undisturbed attempt succeeds -------------------------------------

  function Moves(k: nat): seq<Step> {
    if k == 0 then [] else [ReaderMove] + Moves(k - 1)
  }

  lemma {:induction false} UndisturbedCopy(s: State, frame: Points)
    requires WriterInv(s) && ReaderInv(s) && s.reader.Copying? && Clock(s) == 2 * s.base
    requires frame == s.published[s.base] && s.reader.k <= FIELDS * |frame|
    ensures var s' := Run(s, Moves(FIELDS * |frame| - s.reader.k + 1));
            && s'.reader == Accepted(|frame|, 0) && |frame| <= |s'.out| && s'.out[..|frame|] == frame
            && s'.mem == s.mem && s'.published == s.published
    decreases FIELDS * |frame| - s.reader.k
  {
    hide Word, Cell, SetCell, Agree;
    var left := FIELDS * |frame| - s.reader.k;
    var s1 := ReaderNext(s);
    assert Moves(left + 1)[1..] == Moves(left);
    assert Run(s, Moves(left + 1)) == Run(s1, Moves(left));
    ReaderStepKeeps(s);
    if left > 0 {
      UndisturbedCopy(s1, frame);
    } else {
      assert AcceptedWhole(s1);
    }
  }

  /** Its first two loads find the newest frame's sequence and count. */
  lemma AttemptBegins(s: State)
    requires WriterInv(s) && ReaderInv(s) && s.reader.Attempt? && !InWrite(s.writer)
    ensures var s2 := ReaderNext(ReaderNext(s));
            && s2.reader.Copying? && s2.reader.k == 0 && s2.base == Newest(s) && Clock(s2) == 2 * s2.base
            && s2.published == s.published
  {
    hide Word, Agree;
    WordParity(Clock(s));
  }

  /** An attempt that starts between writes and meets no writer step accepts the newest frame. */
  lemma UndisturbedAttempt(s: State)
    requires WriterInv(s) && ReaderInv(s) && s.reader.Attempt? && !InWrite(s.writer)
    ensures var frame := s.published[Newest(s)];
            var s' := Run(s, Moves(FIELDS * |frame| + 3));
            s'.reader == Accepted(|frame|, 0) && |frame| <= |s'.out| && s'.out[..|frame|] == frame
  {
    var frame := s.published[Newest(s)];
    var k := FIELDS * |frame|;
    var s1 := ReaderNext(s);
    var s2 := ReaderNext(s1);
    AttemptBegins(s);
    ReaderStepKeeps(s);
    ReaderStepKeeps(s1);
    hide WriterInv, ReaderInv, ReaderNext;
    assert Moves(k + 3)[1..] == Moves(k + 2) && Moves(k + 2)[1..] == Moves(k + 1);
    assert Run(s, Moves(k + 3)) == Run(s1, Moves(k + 2)) == Run(s2, Moves(k + 1));
    UndisturbedCopy(s2, frame);
  }

  // ---- how often a call tries ----------------------------------------------

  /** The reader's move ends an attempt without a snapshot: a write was in progress when it began, or
      the sequence had moved on when it ended. */
  predicate Fails(s: State, e: Step) {
    e.ReaderMove? &&
    ((s.reader.Attempt? && s.mem.previewSeq % 2 == 1)
     || (s.reader.Copying? && s.reader.k >= FIELDS * s.reader.count && s.mem.previewSeq != s.reader.s1))
  }

  /** Failed attempts since the latest call began, f of them before this run. */
  function FailedAttempts(s: State, steps: seq<Step>, f: nat): nat
    decreases |steps|
  {
    if |steps| == 0 then f
    else
      var begins := steps[0].Call? && Next(s, steps[0]).reader == Attempt(0) && !InCall(s.reader);
      FailedAttempts(Next(s, steps[0]), steps[1..], if begins then 0 else if Fails(s, steps[0]) then f + 1 else f)
  }

  predicate InCall(r: Reader) { r.Attempt? || r.SeqSeen? || r.Copying? }

  predicate Counted(r: Reader, f: nat) {
    (InCall(r) ==> r.n == f < 8) && (r.Accepted? ==> f < 8) && (r.GaveUp? ==> f == 8)
  }

  lemma {:induction false} AttemptsFrom(s: State, steps: seq<Step>, f: nat)
    requires Counted(s.reader, f)
    ensures Counted(Run(s, steps).reader, FailedAttempts(s, steps, f))
    decreases |steps|
  {
    hide WriterNext, Word, Cell, SetCell;
    if |steps| == 0 {
    } else {
      var begins := steps[0].Call? && Next(s, steps[0]).reader == Attempt(0) && !InCall(s.reader);
      WriterLeavesReader(s);
      AttemptsFrom(Next(s, steps[0]), steps[1..], if begins then 0 else if Fails(s, steps[0]) then f + 1 else f);
    }
  }

  lemma WriterLeavesReader(s: State)
    ensures WriterNext(s).reader == s.reader
  {}

  /** A failed attempt is retried, eight times in all: in every run, a call in progress is at the
      attempt whose number is that of the failed ones, a call that gave up has failed exactly
      eight times, and one that accepted fewer. */
  lemma EightAttempts(steps: seq<Step>)
    ensures var s, f := Run(Init(), steps), FailedAttempts(Init(), steps, 0);
            && (s.reader.Attempt? || s.reader.SeqSeen? || s.reader.Copying? ==> s.reader.n == f < 8)
            && (s.reader.Accepted? ==> f < 8)
            && (s.reader.GaveUp? ==> f == 8)
  {
    hide Run, FailedAttempts;
    AttemptsFrom(Init(), steps, 0);
  }

  /** So however many of a call's first attempts were disturbed, up to seven, the next one accepts the
      newest frame if it begins between writes and is left alone. */
  lemma RetryAccepts(steps: seq<Step>)
    requires Run(Init(), steps).reader.Attempt? && Run(Init(), steps).mem.previewSeq % 2 == 0
    ensures var s := Run(Init(), steps);
            && FailedAttempts(Init(), steps, 0) < 8 && |s.published| > 0
            && var frame := s.published[|s.published| - 1];
               var s' := Run(Init(), steps + Moves(5 * |frame| + 3));
               s'.reader == Accepted(|frame|, 0) && |frame| <= |s'.out| && s'.out[..|frame|] == frame
  {
    hide Run, FailedAttempts, Word, Agree;
    var s := Run(Init(), steps);
    EightAttempts(steps);
    RunKeeps(Init(), steps) by { InitHolds(); }
    WordParity(Clock(s));
    UndisturbedAttempt(s);
    RunJoin(Init(), steps, Moves(5 * |s.published[Newest(s)]| + 3));
  }

  lemma InitHolds()
    ensures WriterInv(Init()) && ReaderInv(Init())
  {}

  lemma {:induction false} RunJoin(s: State, a: seq<Step>, b: seq<Step>)
    ensures Run(s, a + b) == Run(Run(s, a), b)
    decreases |a|
  {
    hide Next;
    if |a| == 0 {
      assert a + b == b;
    } else {
      assert (a + b)[1..] == a[1..] + b;
      RunJoin(Next(s, a[0]), a[1..], b);
    }
  }

  // ---- a publication -------------------------------------------------------

  function WriterMoves(k: nat): seq<Step> {
    if k == 0 then [] else [WriterMove] + WriterMoves(k - 1)
  }

  lemma {:induction false} StoreAll(s: State, frame: Points, q: U32, k: nat)
    requires WriterInv(s) && ReaderInv(s) && s.writer == Storing(frame, q, k) && k <= FIELDS * |frame|
    ensures var s' := Run(s, WriterMoves(FIELDS * |frame| - k + 2));
            s'.writer == Idle && s'.published == s.published + [frame] && WriterInv(s')
    decreases FIELDS * |frame| - k
  {
    hide Word, Cell, SetCell, Agree;
    var left := FIELDS * |frame| - k;
    var s1 := WriterNext(s);
    WriterStepKeeps(s);
    assert WriterMoves(left + 2)[1..] == WriterMoves(left + 1);
    assert Run(s, WriterMoves(left + 2)) == Run(s1, WriterMoves(left + 1));
    if left > 0 {
      StoreAll(s1, frame, q, k + 1);
    } else {
      WriterStepKeeps(s1);
      var s2 := WriterNext(s1);
      assert WriterMoves(1)[1..] == WriterMoves(0);
      assert Run(s1, WriterMoves(1)) == Run(s2, []);
    }
  }

  /** In any run, a call that publishes points adds their first 4096 to the frames published and
      leaves the shared memory holding them, once the writer has made its moves. */
  lemma PublishAdds(steps: seq<Step>, points: Points)
    requires Run(Init(), steps).writer == Idle
    ensures var s := Run(Init(), steps);
            var frame := if |points| <= 4096 then points else points[..4096];
            var s' := Run(s, [Publish(points)] + WriterMoves(5 * |frame| + 3));
            && s'.writer == Idle && s'.published == s.published + [frame]
            && s'.mem.previewCount == |frame| <= |s'.mem.previewPoints|
            && s'.mem.previewPoints[..|frame|] == frame
  {
    hide Word, Cell, SetCell, Agree;
    var s := Run(Init(), steps);
    var frame := if |points| <= 4096 then points else points[..4096];
    assert points[..Clamp(|points|)] == frame;
    RunKeeps(Init(), steps) by { InitHolds(); }
    PublishKeeps(s, points);
    var s1 := Next(s, Publish(points));
    WriterStepKeeps(s1);
    var s2 := WriterNext(s1);
    var k := 5 * |frame| + 3;
    assert ([Publish(points)] + WriterMoves(k))[1..] == WriterMoves(k) && WriterMoves(k)[1..] == WriterMoves(k - 1);
    assert Run(s, [Publish(points)] + WriterMoves(k)) == Run(s1, WriterMoves(k)) == Run(s2, WriterMoves(k - 1));
    StoreAll(s2, frame, s1.writer.s, 0);
    var s3 := Run(s2, WriterMoves(k - 1));
    AgreeIsPrefix(s3.mem.previewPoints, frame);
  }

  // ---- why the bound on publications is needed -----------------------------

  ghost predicate Reachable(s: State) {
    exists steps :: Run(Init(), steps) == s
  }

  lemma {:induction false} RunSnoc(s: State, steps: seq<Step>, e: Step)
    ensures Run(s, steps + [e]) == Next(Run(s, steps), e)
    decreases |steps|
  {
    hide Next;
    if |steps| == 0 {
      assert Run(s, [e]) == Run(Next(s, e), [e][1..]);
    } else {
      assert (steps + [e])[1..] == steps[1..] + [e];
      RunSnoc(Next(s, steps[0]), steps[1..], e);
    }
  }

  lemma ReachNext(s: State, e: Step) returns (s': State)
    requires Reachable(s)
    ensures s' == Next(s, e) && Reachable(s')
  {
    hide Next;
    var steps :| Run(Init(), steps) == s;
    RunSnoc(Init(), steps, e);
    s' := Next(s, e);
    assert Run(Init(), steps + [e]) == s';
  }

  /** A one-point frame goes out in nine writer steps and leaves the reader alone. */
  lemma PublishOne(s: State, p: PreviewPoint) returns (s': State)
    requires Reachable(s) && s.writer.Idle? && |s.mem.previewPoints| == MAX_PREVIEW_POINTS
    ensures Reachable(s')
    ensures s' == s.(mem := Shared(Word(s.mem.previewSeq + 2), 1, s.mem.previewPoints[0 := p]),
                     published := s.published + [[p]])
  {
    hide Word, Reachable;
    var q, ps := s.mem.previewSeq, s.mem.previewPoints;
    s' := ReachNext(s, Publish([p]));
    assert [p][..1] == [p];
    s' := ReachNext(s', WriterMove);
    s' := ReachNext(s', WriterMove);
    s' := ReachNext(s', WriterMove);
    s' := ReachNext(s', WriterMove);
    s' := ReachNext(s', WriterMove);
    s' := ReachNext(s', WriterMove);
    assert s'.mem.previewPoints == ps[0 := p];
    s' := ReachNext(s', WriterMove);
    WordSmall(1);
    s' := ReachNext(s', WriterMove);
  }

  lemma {:induction false} PublishMany(s: State, p: PreviewPoint, n: nat) returns (s': State)
    requires n >= 1 && Reachable(s) && s.writer.Idle? && |s.mem.previewPoints| == MAX_PREVIEW_POINTS
    ensures Reachable(s')
    ensures s'.mem == Shared(Word(s.mem.previewSeq + 2 * n), 1, s.mem.previewPoints[0 := p])
    ensures s' == s.(mem := s'.mem, published := s'.published)
    ensures s.published <= s'.published && |s'.published| == |s.published| + n
    ensures forall i :: |s.published| <= i < |s'.published| ==> s'.published[i] == [p]
    decreases n
  {
    hide Word, Reachable;
    s' := PublishOne(s, p);
    if n == 1 {
    } else {
      WordAdd(s.mem.previewSeq + 2, 2 * (n - 1));
      s' := PublishMany(s', p, n - 1);
    }
  }

  /** With 2^31 publications inside one attempt the 32-bit counter returns to its old value
      and a mixture of two frames is accepted: a snapshot nobody published. */
  lemma TornAfterFullWrap() returns (steps: seq<Step>)
    ensures var s := Run(Init(), steps);
            s.reader.Accepted? && s.reader.ahead == WRAP / 2
            && s.reader.count <= |s.out| && s.out[..s.reader.count] !in s.published
  {
    hide Word, Reachable, Next;
    var a, b := PreviewPoint(1, 1, 1, 1, 1), PreviewPoint(2, 2, 2, 2, 2);
    InitReachable();
    var s := PublishOne(Init(), a);
    WordSmall(2);
    s := StartTornRead(s);
    s := PublishMany(s, b, WRAP / 2);
    WordWrap(2);
    s := FinishTornRead(s);
    var mix := s.out[..1];
    assert mix == [PreviewPoint(1, 2, 2, 2, 2)];
    forall i | 0 <= i < |s.published| ensures s.published[i] != mix {
      assert i == 0 || i == 1 || s.published[i] == [b];
    }
    steps := PathTo(s);
  }

  /** Every snapshot accepted in an attempt that saw at most n publications is a frame that
      was published. */
  ghost predicate NeverTorn(n: nat) {
    forall steps :: Run(Init(), steps).reader.Accepted? && Run(Init(), steps).reader.ahead <= n ==>
      SnapshotPublished(Run(Init(), steps))
  }

  ghost predicate SnapshotPublished(s: State) {
    s.reader.Accepted? && s.reader.count <= |s.out| && s.out[..s.reader.count] in s.published
  }

  /** The bound on publications is sharp. */
  lemma NeverTornExactly(n: nat)
    ensures NeverTorn(n) <==> n < 2147483648
  {
    hide Run;
    if n < WRAP / 2 {
      forall steps | Run(Init(), steps).reader.Accepted? && Run(Init(), steps).reader.ahead <= n
        ensures SnapshotPublished(Run(Init(), steps))
      {
        NoTornSnapshot(steps);
      }
    } else {
      var steps := TornAfterFullWrap();
      assert !SnapshotPublished(Run(Init(), steps));
    }
  }

  lemma InitReachable()
    ensures Reachable(Init())
  {
    assert Run(Init(), []) == Init();
  }

  lemma PathTo(s: State) returns (steps: seq<Step>)
    requires Reachable(s)
    ensures Run(Init(), steps) == s
  {
    steps :| Run(Init(), steps) == s;
  }

  /** The reader loads the sequence, the count and the first float of a one-point frame. */
  lemma StartTornRead(s: State) returns (s': State)
    requires Reachable(s) && s.reader.Resting? && |s.published| == 2
    requires |s.mem.previewPoints| == MAX_PREVIEW_POINTS && s.mem.previewSeq == 2 && s.mem.previewCount == 1
    ensures Reachable(s')
    ensures s' == s.(reader := Copying(0, 2, 1, 1), base := 1, callBase := 1,
                     out := Blank()[0 := NO_POINT.(x := s.mem.previewPoints[0].x)])
  {
    hide Reachable;
    s' := ReachNext(s, Call(Blank()));
    s' := ReachNext(s', ReaderMove);
    s' := ReachNext(s', ReaderMove);
    s' := ReachNext(s', ReaderMove);
  }

  /** It then copies the other four floats and finds the sequence it started from. */
  lemma FinishTornRead(s: State) returns (s': State)
    requires Reachable(s) && s.reader == Copying(0, 2, 1, 1) && s.base == 1 && |s.published| >= 2
    requires |s.out| == |s.mem.previewPoints| == MAX_PREVIEW_POINTS && s.mem.previewSeq == 2
    ensures Reachable(s')
    ensures s' == s.(reader := Accepted(1, |s.published| - 2),
                     out := s.out[0 := s.mem.previewPoints[0].(x := s.out[0].x)])
  {
    hide Reachable;
    s' := ReachNext(s, ReaderMove);
    s' := ReachNext(s', ReaderMove);
    s' := ReachNext(s', ReaderMove);
    s' := ReachNext(s', ReaderMove);
    s' := ReachNext(s', ReaderMove);
  }

  // ---- the two calls run alone ---------------------------------------------

  class EngineTelemetry {
    var previewSeq: U32
    var previewCount: U32
    const previewPoints: array<PreviewPoint>

    ghost predicate Valid()
      reads this
    {
      previewPoints.Length == MAX_PREVIEW_POINTS
    }

    constructor ()
      ensures Valid() && fresh(previewPoints) && previewSeq == 0 && previewCount == 0
    {
      previewSeq, previewCount := 0, 0;
      previewPoints := new PreviewPoint[MAX_PREVIEW_POINTS](_ => NO_POINT);
    }

    /** Leaves the counter two further on and the memory holding the frame, cut at capacity. */
    method WritePreview(points: array<PreviewPoint>)
      requires Valid() && points != previewPoints
      modifies this, previewPoints
      ensures Valid() && previewSeq == Word(old(previewSeq) + 2)
      ensures previewCount == if points.Length <= 4096 then points.Length else 4096
      ensures previewPoints[..previewCount] == points[..previewCount]
      ensures previewPoints[previewCount..] == old(previewPoints[if points.Length <= 4096 then points.Length else 4096..])
    {
      var count := points.Length;
      if count > MAX_PREVIEW_POINTS {
        count := MAX_PREVIEW_POINTS;
      }
      var s: int := previewSeq;
      previewSeq := Word(s + 1);
      var i := 0;
      while i < count
        invariant 0 <= i <= count
        invariant forall m :: 0 <= m < i ==> previewPoints[m] == points[m]
        invariant forall m :: i <= m < previewPoints.Length ==> previewPoints[m] == old(previewPoints[m])
        modifies previewPoints
      {
        previewPoints[i] := points[i];
        i := i + 1;
      }
      previewCount := count;
      previewSeq := Word(s + 2);
    }

    /** With no writer about: an even counter gives the stored frame at once, an odd one
        gives nothing after all attempts. */
    method ReadPreview(out: array<PreviewPoint>) returns (n: nat)
      requires Valid() && out != previewPoints && out.Length == MAX_PREVIEW_POINTS
      modifies out
      ensures n <= out.Length
      ensures previewSeq % 2 == 0 ==>
        n == (if previewCount <= 4096 then previewCount else 4096) && out[..n] == previewPoints[..n]
      ensures previewSeq % 2 == 1 ==> n == 0 && out[..] == old(out[..])
    {
      var attempt := 0;
      while attempt < ATTEMPTS
        invariant previewSeq % 2 == 0 ==> attempt == 0
        invariant out[..] == old(out[..])
      {
        var s1 := previewSeq;
        if s1 % 2 == 0 {
          var count := previewCount;
          if count > MAX_PREVIEW_POINTS {
            count := MAX_PREVIEW_POINTS;
          }
          var i := 0;
          while i < count
            invariant 0 <= i <= count
            invariant forall m :: 0 <= m < i ==> out[m] == previewPoints[m]
          {
            out[i] := previewPoints[i];
            i := i + 1;
          }
          var s2 := previewSeq;
          if s1 == s2 {
            return count;
          }
        }
        attempt := attempt + 1;
      }
      n := 0;
    }
  }
}
