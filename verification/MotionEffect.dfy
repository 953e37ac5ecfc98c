/** Procedural effects applied in place to a frame's points. Sine and cosine are
    parameters; everything else is exact. */
module MotionEffect {
  import opened Bytes
  import opened IldaTypes
  import opened IldaFormat
  import opened ShowTypes

  type MotionEffect = Effect<real>
  type Points = seq<IldaPoint>

  datatype Trig = Trig(sin: real -> real, cos: real -> real)

  const TWO_PI := 6.283185307179586

  const ROTATE: Byte := 0
  const WAVE: Byte := 1
  const RUNNER: Byte := 2
  const STROBE: Byte := 3
  const PULSE: Byte := 4
  const COLOR_CYCLE: Byte := 5
  const BOUNCE: Byte := 6
  const TRACE: Byte := 7
  const TWINKLE: Byte := 8

  const FORWARD: Byte := 0
  const REVERSE: Byte := 1
  const PING_PONG: Byte := 2

  /** Fractional part in [0, 1). */
  function Frac(x: real): (f: real)
    ensures 0.0 <= f < 1.0 && x - f == (x - f).Floor as real
  {
    x - x.Floor as real
  }

  /** A triangle 0 -> 1 -> 0 over one period. */
  function Triangle(phase: real): (y: real)
    ensures 0.0 <= y <= 1.0
  {
    var p := Frac(phase);
    if p < 0.5 then p * 2.0 else 2.0 - p * 2.0
  }

  function Abs(x: real): real { if x < 0.0 then -x else x }

  /** Cycles elapsed at time t. */
  function Cycles(e: MotionEffect, t: real): real { e.rateHz * t }

  function Phase(e: MotionEffect, t: real): real {
    if e.direction == FORWARD then Frac(Cycles(e, t))
    else if e.direction == REVERSE then Frac(-Cycles(e, t))
    else if e.direction == PING_PONG then Triangle(Cycles(e, t))
    else 0.0
  }

  /** Position of point i along a shape of n points. */
  function Along(i: nat, n: nat): real {
    if n > 1 then i as real / (n - 1) as real else 0.0
  }

  /** The sparkle hash in 32-bit arithmetic; its low 24 bits count. */
  function HashBits(index: bv32, tick: bv32): bv24 {
    var h0: bv32 := (index * 2654435761) ^ (tick * 668265263);
    var h1: bv32 := h0 ^ (h0 >> 13);
    var h2: bv32 := h1 * 0x5bd1e995;
    var h3: bv32 := h2 ^ (h2 >> 15);
    (h3 & 0xFFFFFF) as bv24
  }

  /** The deterministic sparkle hash of a point index and a time step. */
  function HashUnit(index: nat, tick: int): real {
    Share(HashBits((index % 0x1_0000_0000) as bv32, (tick % 0x1_0000_0000) as bv32))
  }

  /** A 24-bit value as a share of its range. */
  function Share(h: bv24): (u: real)
    ensures 0.0 <= u < 1.0
  {
    h as int as real / 16777216.0
  }

  function ToByte(x: real): Byte {
    var n := Round(x * 255.0);
    n % 256
  }

  /** Full-saturation hue to colour. */
  function Hue(h: real): Rgb {
    var hh := Frac(h) * 6.0;
    var sector := hh.Floor % 6;
    var f := hh - hh.Floor as real;
    var (r, g, b) :=
      if sector == 0 then (1.0, f, 0.0) else if sector == 1 then (1.0 - f, 1.0, 0.0)
      else if sector == 2 then (0.0, 1.0, f) else if sector == 3 then (0.0, 1.0 - f, 1.0)
      else if sector == 4 then (f, 0.0, 1.0) else (1.0, 0.0, 1.0 - f);
    Rgb(ToByte(r), ToByte(g), ToByte(b))
  }

  // ---- what each effect does to one point ----------------------------------

  function Rotated(c: real, s: real, p: IldaPoint): IldaPoint {
    p.(x := p.x * c - p.y * s, y := p.x * s + p.y * c)
  }

  function Moved(axis: Byte, offset: real, p: IldaPoint): IldaPoint {
    if axis == 0 then p.(x := p.x + offset) else p.(y := p.y + offset)
  }

  function Scaled(scale: real, p: IldaPoint): IldaPoint {
    p.(x := p.x * scale, y := p.y * scale)
  }

  function Coloured(c: Rgb, p: IldaPoint): IldaPoint {
    p.(r := c.r, g := c.g, b := c.b)
  }

  /** Angle swept at `rate` turns per second. */
  function Swept(rate: real, t: real): real { TWO_PI * rate * t }

  function RotateAngle(e: MotionEffect, t: real, trig: Trig): real {
    if e.direction == FORWARD then Swept(e.rateHz, t)
    else if e.direction == REVERSE then -Swept(e.rateHz, t)
    else if e.direction == PING_PONG then TWO_PI * e.amount * trig.sin(Swept(e.rateHz, t))
    else 0.0
  }

  function WaveOffset(e: MotionEffect, t: real, trig: Trig): real {
    var offset := e.amount * trig.sin(Swept(e.rateHz, t));
    if e.direction == REVERSE then -offset else offset
  }

  function BounceOffset(e: MotionEffect, t: real, trig: Trig): real {
    var offset := e.amount * Abs(trig.sin(Swept(e.rateHz, t)));
    if e.direction == REVERSE then -offset else offset
  }

  function PulseScale(e: MotionEffect, t: real, trig: Trig): real {
    var phase := Swept(e.rateHz, t);
    1.0 + e.amount * trig.sin(if e.direction == REVERSE then -phase else phase)
  }

  predicate InRunner(e: MotionEffect, phase: real, i: nat, n: nat) {
    var d := Abs(Along(i, n) - phase);
    (if d < 1.0 - d then d else 1.0 - d) <= e.amount * 0.5
  }

  function TimeHue(e: MotionEffect, t: real): real {
    if e.direction == REVERSE then -Cycles(e, t) else Cycles(e, t)
  }

  function HueAt(e: MotionEffect, t: real, i: nat, n: nat): real {
    TimeHue(e, t) + Along(i, n) * e.amount
  }

  /** Whether an effect leaves point i of n lit at time t; it looks at nothing else. */
  predicate Keeps(e: MotionEffect, t: real, i: nat, n: nat) {
    !e.enabled
    || (if e.kind == STROBE then Frac(Cycles(e, t)) < e.amount
        else if e.kind == TRACE then Along(i, n) <= Phase(e, t)
        else if e.kind == TWINKLE then HashUnit(i, Cycles(e, t).Floor) < e.amount
        else true)
  }

  function PointAfter(e: MotionEffect, t: real, trig: Trig, i: nat, n: nat, p: IldaPoint): IldaPoint {
    if !e.enabled then p
    else if e.kind == ROTATE then
      var angle := RotateAngle(e, t, trig);
      Rotated(trig.cos(angle), trig.sin(angle), p)
    else if e.kind == WAVE then Moved(e.axis, WaveOffset(e, t, trig), p)
    else if e.kind == RUNNER then (if InRunner(e, Phase(e, t), i, n) then Coloured(Rgb(e.r, e.g, e.b), p) else p)
    else if e.kind == PULSE then Scaled(PulseScale(e, t, trig), p)
    else if e.kind == COLOR_CYCLE then
      (if p.blanked then p else Coloured(Hue(HueAt(e, t, i, n)), p))
    else if e.kind == BOUNCE then Moved(e.axis, BounceOffset(e, t, trig), p)
    else if e.kind == STROBE || e.kind == TRACE || e.kind == TWINKLE then
      (if Keeps(e, t, i, n) then p else p.(blanked := true))
    else p
  }

  function After(e: MotionEffect, t: real, trig: Trig, ps: Points): (qs: Points)
    ensures |qs| == |ps|
  {
    seq(|ps|, i requires 0 <= i < |ps| => PointAfter(e, t, trig, i, |ps|, ps[i]))
  }

  /** Effects in order, each on the previous one's result. */
  function AfterStack(es: seq<MotionEffect>, t: real, trig: Trig, ps: Points): (qs: Points)
    ensures |qs| == |ps|
  {
    if |es| == 0 then ps else AfterStack(es[1..], t, trig, After(es[0], t, trig, ps))
  }

  // ---- in place ------------------------------------------------------------

  method ApplyRotate(points: array<IldaPoint>, e: MotionEffect, t: real, trig: Trig)
    requires e.enabled && e.kind == ROTATE
    modifies points
    ensures points[..] == After(e, t, trig, old(points[..]))
  {
    hide Rotated;
    var angle := RotateAngle(e, t, trig);
    var c, s := trig.cos(angle), trig.sin(angle);
    for i := 0 to points.Length
      invariant forall k :: 0 <= k < i ==> points[k] == Rotated(c, s, old(points[k]))
      invariant forall k :: i <= k < points.Length ==> points[k] == old(points[k])
    {
      points[i] := Rotated(c, s, points[i]);
    }
    assert forall k :: 0 <= k < points.Length ==>
      points[k] == PointAfter(e, t, trig, k, points.Length, old(points[k]));
  }

  method ApplyMove(points: array<IldaPoint>, axis: Byte, offset: real)
    modifies points
    ensures forall k :: 0 <= k < points.Length ==> points[k] == Moved(axis, offset, old(points[k]))
  {
    for i := 0 to points.Length
      invariant forall k :: 0 <= k < i ==> points[k] == Moved(axis, offset, old(points[k]))
      invariant forall k :: i <= k < points.Length ==> points[k] == old(points[k])
    {
      points[i] := Moved(axis, offset, points[i]);
    }
  }

  method ApplyWave(points: array<IldaPoint>, e: MotionEffect, t: real, trig: Trig)
    requires e.enabled && e.kind == WAVE
    modifies points
    ensures points[..] == After(e, t, trig, old(points[..]))
  {
    hide Moved, Swept, HashUnit, Hue, Cycles;
    var offset := e.amount * trig.sin(Swept(e.rateHz, t));
    if e.direction == REVERSE {
      offset := -offset;
    }
    assert offset == WaveOffset(e, t, trig);
    ApplyMove(points, e.axis, offset);
    assert forall k :: 0 <= k < points.Length ==>
      points[k] == PointAfter(e, t, trig, k, points.Length, old(points[k]));
  }

  method ApplyBounce(points: array<IldaPoint>, e: MotionEffect, t: real, trig: Trig)
    requires e.enabled && e.kind == BOUNCE
    modifies points
    ensures points[..] == After(e, t, trig, old(points[..]))
  {
    hide Moved, Swept, HashUnit, Hue, Cycles;
    var offset := e.amount * Abs(trig.sin(Swept(e.rateHz, t)));
    if e.direction == REVERSE {
      offset := -offset;
    }
    assert offset == BounceOffset(e, t, trig);
    ApplyMove(points, e.axis, offset);
    assert forall k :: 0 <= k < points.Length ==>
      points[k] == PointAfter(e, t, trig, k, points.Length, old(points[k]));
  }

  method ApplyRunner(points: array<IldaPoint>, e: MotionEffect, t: real, trig: Trig)
    requires e.enabled && e.kind == RUNNER
    modifies points
    ensures points[..] == After(e, t, trig, old(points[..]))
  {
    hide InRunner, Phase;
    var phase := Phase(e, t);
    var n := points.Length;
    for i := 0 to n
      invariant forall k :: 0 <= k < i ==> points[k] == PointAfter(e, t, trig, k, n, old(points[k]))
      invariant forall k :: i <= k < n ==> points[k] == old(points[k])
    {
      if InRunner(e, phase, i, n) {
        points[i] := Coloured(Rgb(e.r, e.g, e.b), points[i]);
      }
    }
    assert forall k :: 0 <= k < points.Length ==>
      points[k] == PointAfter(e, t, trig, k, points.Length, old(points[k]));
  }

  method ApplyStrobe(points: array<IldaPoint>, e: MotionEffect, t: real, trig: Trig)
    requires e.enabled && e.kind == STROBE
    modifies points
    ensures points[..] == After(e, t, trig, old(points[..]))
  {
    hide Cycles, Frac, HashUnit, Hue;
    var phase := Frac(Cycles(e, t));
    if phase >= e.amount {
      for i := 0 to points.Length
        invariant forall k :: 0 <= k < i ==> points[k] == old(points[k]).(blanked := true)
        invariant forall k :: i <= k < points.Length ==> points[k] == old(points[k])
      {
        points[i] := points[i].(blanked := true);
      }
    }
    assert forall k :: 0 <= k < points.Length ==>
      points[k] == PointAfter(e, t, trig, k, points.Length, old(points[k]));
  }

  method ApplyPulse(points: array<IldaPoint>, e: MotionEffect, t: real, trig: Trig)
    requires e.enabled && e.kind == PULSE
    modifies points
    ensures points[..] == After(e, t, trig, old(points[..]))
  {
    hide Scaled, Swept, HashUnit, Hue, Cycles;
    var phase := Swept(e.rateHz, t);
    if e.direction == REVERSE {
      phase := -phase;
    }
    var scale := 1.0 + e.amount * trig.sin(phase);
    assert scale == PulseScale(e, t, trig);
    for i := 0 to points.Length
      invariant forall k :: 0 <= k < i ==> points[k] == Scaled(scale, old(points[k]))
      invariant forall k :: i <= k < points.Length ==> points[k] == old(points[k])
    {
      points[i] := Scaled(scale, points[i]);
    }
    assert forall k :: 0 <= k < points.Length ==>
      points[k] == PointAfter(e, t, trig, k, points.Length, old(points[k]));
  }

  method ApplyColorCycle(points: array<IldaPoint>, e: MotionEffect, t: real, trig: Trig)
    requires e.enabled && e.kind == COLOR_CYCLE
    modifies points
    ensures points[..] == After(e, t, trig, old(points[..]))
  {
    hide Hue, TimeHue, Along, HashUnit;
    var timeHue := TimeHue(e, t);
    var n := points.Length;
    for i := 0 to n
      invariant forall k :: 0 <= k < i ==> points[k] == PointAfter(e, t, trig, k, n, old(points[k]))
      invariant forall k :: i <= k < n ==> points[k] == old(points[k])
    {
      if !points[i].blanked {
        var hue := timeHue + Along(i, n) * e.amount;
        assert hue == HueAt(e, t, i, n);
        points[i] := Coloured(Hue(hue), points[i]);
      }
    }
    assert forall k :: 0 <= k < points.Length ==>
      points[k] == PointAfter(e, t, trig, k, points.Length, old(points[k]));
  }

  method ApplyTrace(points: array<IldaPoint>, e: MotionEffect, t: real, trig: Trig)
    requires e.enabled && e.kind == TRACE
    modifies points
    ensures points[..] == After(e, t, trig, old(points[..]))
  {
    hide Along, Phase;
    var phase := Phase(e, t);
    var n := points.Length;
    for i := 0 to n
      invariant forall k :: 0 <= k < i ==> points[k] == PointAfter(e, t, trig, k, n, old(points[k]))
      invariant forall k :: i <= k < n ==> points[k] == old(points[k])
    {
      if Along(i, n) > phase {
        points[i] := points[i].(blanked := true);
      }
    }
    assert forall k :: 0 <= k < points.Length ==>
      points[k] == PointAfter(e, t, trig, k, points.Length, old(points[k]));
  }

  method ApplyTwinkle(points: array<IldaPoint>, e: MotionEffect, t: real, trig: Trig)
    requires e.enabled && e.kind == TWINKLE
    modifies points
    ensures points[..] == After(e, t, trig, old(points[..]))
  {
    hide HashUnit, Cycles, Hue;
    var tick := Cycles(e, t).Floor;
    var n := points.Length;
    for i := 0 to n
      invariant forall k :: 0 <= k < i ==> points[k] == PointAfter(e, t, trig, k, n, old(points[k]))
      invariant forall k :: i <= k < n ==> points[k] == old(points[k])
    {
      if HashUnit(i, tick) >= e.amount {
        points[i] := points[i].(blanked := true);
      }
    }
    assert forall k :: 0 <= k < points.Length ==>
      points[k] == PointAfter(e, t, trig, k, points.Length, old(points[k]));
  }

  method ApplyEffect(points: array<IldaPoint>, e: MotionEffect, t: real, trig: Trig)
    modifies points
    ensures points[..] == After(e, t, trig, old(points[..]))
  {
    if !e.enabled {
      return;
    }
    if e.kind == ROTATE {
      ApplyRotate(points, e, t, trig);
    } else if e.kind == WAVE {
      ApplyWave(points, e, t, trig);
    } else if e.kind == RUNNER {
      ApplyRunner(points, e, t, trig);
    } else if e.kind == STROBE {
      ApplyStrobe(points, e, t, trig);
    } else if e.kind == PULSE {
      ApplyPulse(points, e, t, trig);
    } else if e.kind == COLOR_CYCLE {
      ApplyColorCycle(points, e, t, trig);
    } else if e.kind == BOUNCE {
      ApplyBounce(points, e, t, trig);
    } else if e.kind == TRACE {
      ApplyTrace(points, e, t, trig);
    } else if e.kind == TWINKLE {
      ApplyTwinkle(points, e, t, trig);
    }
  }

  method ApplyEffects(points: array<IldaPoint>, effects: seq<MotionEffect>, t: real, trig: Trig)
    modifies points
    ensures points[..] == AfterStack(effects, t, trig, old(points[..]))
  {
    hide After;
    assert effects[0..] == effects;
    for i := 0 to |effects|
      invariant AfterStack(effects[i..], t, trig, points[..]) == AfterStack(effects, t, trig, old(points[..]))
    {
      assert effects[i..][1..] == effects[i + 1..];
      ApplyEffect(points, effects[i], t, trig);
    }
  }

  // ---- which points stay lit -----------------------------------------------

  lemma OneEffectLit(e: MotionEffect, t: real, trig: Trig, i: nat, n: nat, p: IldaPoint)
    ensures !PointAfter(e, t, trig, i, n, p).blanked <==> !p.blanked && Keeps(e, t, i, n)
  {
    hide Along, Phase, Frac, HashUnit, Hue, InRunner;
  }

  /** After any stack the lit points are those lit before that every effect keeps; what an
      effect keeps depends only on the index, the count and the time. */
  lemma {:induction false} LitSetOfStack(es: seq<MotionEffect>, t: real, trig: Trig, ps: Points, i: nat)
    requires i < |ps|
    ensures !AfterStack(es, t, trig, ps)[i].blanked <==>
            !ps[i].blanked && forall e :: e in es ==> Keeps(e, t, i, |ps|)
  {
    hide Keeps, PointAfter;
    if |es| == 0 {
    } else {
      LitSetOfStack(es[1..], t, trig, After(es[0], t, trig, ps), i);
      OneEffectLit(es[0], t, trig, i, |ps|, ps[i]);
      assert forall e :: e in es <==> e == es[0] || e in es[1..];
    }
  }

  /** Reordering or repeating effects never changes which points are lit. */
  lemma LitSetIgnoresOrder(es: seq<MotionEffect>, es': seq<MotionEffect>, t: real, trig: Trig, ps: Points, i: nat)
    requires i < |ps| && forall e :: e in es <==> e in es'
    ensures AfterStack(es, t, trig, ps)[i].blanked == AfterStack(es', t, trig, ps)[i].blanked
  {
    hide Keeps, AfterStack;
    LitSetOfStack(es, t, trig, ps, i);
    LitSetOfStack(es', t, trig, ps, i);
  }

  /** No stack lights a blanked point, nor recolours it unless it holds a runner. */
  lemma {:induction false} DarkStaysDark(es: seq<MotionEffect>, t: real, trig: Trig, ps: Points, i: nat)
    requires i < |ps| && ps[i].blanked
    ensures var q := AfterStack(es, t, trig, ps)[i];
            && q.blanked
            && ((forall e :: e in es ==> e.kind != RUNNER) ==> q.r == ps[i].r && q.g == ps[i].g && q.b == ps[i].b)
  {
    hide Keeps;
    if |es| == 0 {
    } else {
      DarkStaysDark(es[1..], t, trig, After(es[0], t, trig, ps), i);
      assert forall e :: e in es[1..] ==> e in es;
      assert es[0] in es;
    }
  }

  // ---- where the points go -------------------------------------------------

  /** The effects that move points; the others only blank or recolour. */
  predicate Moves(e: MotionEffect) {
    e.kind == ROTATE || e.kind == WAVE || e.kind == PULSE || e.kind == BOUNCE
  }

  function Movers(es: seq<MotionEffect>): seq<MotionEffect> {
    if |es| == 0 then [] else (if Moves(es[0]) then [es[0]] else []) + Movers(es[1..])
  }

  predicate SamePosition(p: IldaPoint, q: IldaPoint) {
    p.x == q.x && p.y == q.y && p.z == q.z
  }

  predicate SamePositions(ps: Points, qs: Points) {
    |ps| == |qs| && forall i :: 0 <= i < |ps| ==> SamePosition(ps[i], qs[i])
  }

  lemma OneEffectMoves(e: MotionEffect, t: real, trig: Trig, i: nat, n: nat, p: IldaPoint, q: IldaPoint)
    requires SamePosition(p, q)
    ensures SamePosition(PointAfter(e, t, trig, i, n, p), PointAfter(e, t, trig, i, n, q))
    ensures !Moves(e) ==> SamePosition(PointAfter(e, t, trig, i, n, p), p)
  {
    hide Keeps, InRunner, Hue, RotateAngle, WaveOffset, BounceOffset, PulseScale;
  }

  /** Positions after a stack are those after its moving effects alone, whatever the colours. */
  lemma {:induction false} PositionsOfStack(es: seq<MotionEffect>, t: real, trig: Trig, ps: Points, qs: Points)
    requires SamePositions(ps, qs)
    ensures SamePositions(AfterStack(es, t, trig, ps), AfterStack(Movers(es), t, trig, qs))
  {
    hide PointAfter, SamePosition;
    if |es| == 0 {
    } else {
      var e := es[0];
      var ps1 := After(e, t, trig, ps);
      forall i | 0 <= i < |ps|
        ensures SamePosition(ps1[i], (if Moves(e) then After(e, t, trig, qs) else qs)[i])
      {
        OneEffectMoves(e, t, trig, i, |ps|, ps[i], qs[i]);
        SamePositionTrans(ps1[i], ps[i], qs[i]);
      }
      PositionsOfStack(es[1..], t, trig, ps1, if Moves(e) then After(e, t, trig, qs) else qs);
      if Moves(e) {
        assert Movers(es)[1..] == Movers(es[1..]);
      } else {
        assert Movers(es) == Movers(es[1..]);
      }
    }
  }

  lemma SamePositionTrans(p: IldaPoint, q: IldaPoint, r: IldaPoint)
    ensures SamePosition(p, q) && SamePosition(q, r) ==> SamePosition(p, r)
  {}

  /** A map of the plane: linear part and offset. */
  datatype Affine = Affine(xx: real, xy: real, yx: real, yy: real, dx: real, dy: real)

  const IDENTITY := Affine(1.0, 0.0, 0.0, 1.0, 0.0, 0.0)

  function Dot(a: real, b: real, x: real, y: real): real { a * x + b * y }

  function Mapped(m: Affine, p: IldaPoint): IldaPoint {
    p.(x := Dot(m.xx, m.xy, p.x, p.y) + m.dx, y := Dot(m.yx, m.yy, p.x, p.y) + m.dy)
  }

  /** First m, then k. */
  function Then(m: Affine, k: Affine): Affine {
    Affine(Dot(k.xx, k.xy, m.xx, m.yx), Dot(k.xx, k.xy, m.xy, m.yy),
           Dot(k.yx, k.yy, m.xx, m.yx), Dot(k.yx, k.yy, m.xy, m.yy),
           Dot(k.xx, k.xy, m.dx, m.dy) + k.dx, Dot(k.yx, k.yy, m.dx, m.dy) + k.dy)
  }

  lemma ThenMaps(m: Affine, k: Affine, p: IldaPoint)
    ensures Mapped(Then(m, k), p) == Mapped(k, Mapped(m, p))
  {
    hide Dot;
    DotThen(k.xx, k.xy, m, p.x, p.y);
    DotThen(k.yx, k.yy, m, p.x, p.y);
  }

  lemma DotThen(a: real, b: real, m: Affine, x: real, y: real)
    ensures Dot(a, b, Dot(m.xx, m.xy, x, y) + m.dx, Dot(m.yx, m.yy, x, y) + m.dy)
         == Dot(Dot(a, b, m.xx, m.yx), Dot(a, b, m.xy, m.yy), x, y) + Dot(a, b, m.dx, m.dy)
  {
    ScaleRow(a, m.xx, m.xy, m.dx, x, y);
    ScaleRow(b, m.yx, m.yy, m.dy, x, y);
  }

  lemma ScaleRow(a: real, u: real, v: real, w: real, x: real, y: real)
    ensures a * (u * x + v * y + w) == (a * u) * x + (a * v) * y + a * w
  {}

  lemma IdentityMaps(p: IldaPoint)
    ensures Mapped(IDENTITY, p) == p
  {}

  function EffectMap(e: MotionEffect, t: real, trig: Trig): Affine {
    if !e.enabled then IDENTITY
    else if e.kind == ROTATE then
      var c, s := trig.cos(RotateAngle(e, t, trig)), trig.sin(RotateAngle(e, t, trig));
      Affine(c, -s, s, c, 0.0, 0.0)
    else if e.kind == WAVE || e.kind == BOUNCE then
      var d := if e.kind == WAVE then WaveOffset(e, t, trig) else BounceOffset(e, t, trig);
      if e.axis == 0 then IDENTITY.(dx := d) else IDENTITY.(dy := d)
    else if e.kind == PULSE then
      var k := PulseScale(e, t, trig);
      Affine(k, 0.0, 0.0, k, 0.0, 0.0)
    else IDENTITY
  }

  function StackMap(es: seq<MotionEffect>, t: real, trig: Trig): Affine {
    if |es| == 0 then IDENTITY else Then(EffectMap(es[0], t, trig), StackMap(es[1..], t, trig))
  }

  lemma OneEffectMap(e: MotionEffect, t: real, trig: Trig, i: nat, n: nat, p: IldaPoint)
    ensures SamePosition(PointAfter(e, t, trig, i, n, p), Mapped(EffectMap(e, t, trig), p))
  {
    hide Keeps, InRunner, Hue, RotateAngle, WaveOffset, BounceOffset, PulseScale;
    IdentityMaps(p);
  }

  lemma SameMapped(m: Affine, p: IldaPoint, q: IldaPoint)
    requires SamePosition(p, q)
    ensures SamePosition(Mapped(m, p), Mapped(m, q))
  {}

  /** Every stack moves all points by one map of the plane, which depends on the stack and the
      time only: not on a point's index or colour, nor on how many points there are. */
  lemma {:induction false} StackIsOneMap(es: seq<MotionEffect>, t: real, trig: Trig, ps: Points, i: nat)
    requires i < |ps|
    ensures SamePosition(AfterStack(es, t, trig, ps)[i], Mapped(StackMap(es, t, trig), ps[i]))
  {
    hide PointAfter, SamePosition, Mapped, Then, EffectMap;
    var p := ps[i];
    if |es| == 0 {
      IdentityMaps(p);
      assert SamePosition(p, p) by { SamePositionRefl(p); }
    } else {
      var ps1 := After(es[0], t, trig, ps);
      var m, k := EffectMap(es[0], t, trig), StackMap(es[1..], t, trig);
      StackIsOneMap(es[1..], t, trig, ps1, i);
      OneEffectMap(es[0], t, trig, i, |ps|, p);
      SameMapped(k, ps1[i], Mapped(m, p));
      ThenMaps(m, k, p);
      SamePositionTrans(AfterStack(es, t, trig, ps)[i], Mapped(k, ps1[i]), Mapped(Then(m, k), p));
    }
  }

  lemma SamePositionRefl(p: IldaPoint)
    ensures SamePosition(p, p)
  {}

  /** A rotation about the centre. */
  predicate Rotation(m: Affine) {
    m.yy == m.xx && m.yx == -m.xy && m.xx * m.xx + m.yx * m.yx == 1.0 && m.dx == 0.0 && m.dy == 0.0
  }

  lemma RotationsCompose(m: Affine, k: Affine)
    requires Rotation(m) && Rotation(k)
    ensures Rotation(Then(m, k))
  {
    var a, b, c, d := m.xx, m.yx, k.xx, k.yx;
    assert (c * a - d * b) * (c * a - d * b) + (d * a + c * b) * (d * a + c * b)
        == (a * a + b * b) * (c * c + d * d);
  }

  /** Sine and cosine are coordinates on the unit circle. */
  ghost predicate OnCircle(trig: Trig) {
    forall a :: trig.cos(a) * trig.cos(a) + trig.sin(a) * trig.sin(a) == 1.0
  }

  predicate OnlyRotates(e: MotionEffect) { e.enabled && Moves(e) ==> e.kind == ROTATE }

  lemma EffectRotates(e: MotionEffect, t: real, trig: Trig)
    requires OnCircle(trig) && OnlyRotates(e)
    ensures Rotation(EffectMap(e, t, trig))
  {
    hide RotateAngle, WaveOffset, BounceOffset, PulseScale;
  }

  lemma IdentityRotates()
    ensures Rotation(IDENTITY)
  {}

  lemma {:induction false} RotationStack(es: seq<MotionEffect>, t: real, trig: Trig)
    requires OnCircle(trig)
    requires forall e :: e in es ==> OnlyRotates(e)
    ensures Rotation(StackMap(es, t, trig))
  {
    hide Then, EffectMap, OnlyRotates, OnCircle, Rotation;
    if |es| == 0 {
      IdentityRotates();
    } else {
      assert es[0] in es;
      EffectRotates(es[0], t, trig);
      RotationStack(es[1..], t, trig);
      RotationsCompose(EffectMap(es[0], t, trig), StackMap(es[1..], t, trig));
    }
  }

  /** A stack whose only moving effects are rotations is rigid: it keeps every point's distance
      from the centre and every distance between two points. */
  lemma RotationStackRigid(es: seq<MotionEffect>, t: real, trig: Trig, ps: Points, i: nat, j: nat)
    requires OnCircle(trig)
    requires forall e :: e in es ==> OnlyRotates(e)
    requires i < |ps| && j < |ps|
    ensures var qs := AfterStack(es, t, trig, ps);
            && Square(qs[i].x) + Square(qs[i].y) == Square(ps[i].x) + Square(ps[i].y)
            && Square(qs[i].x - qs[j].x) + Square(qs[i].y - qs[j].y)
            == Square(ps[i].x - ps[j].x) + Square(ps[i].y - ps[j].y)
  {
    hide AfterStack, StackMap, Square, OnCircle, OnlyRotates;
    var m := StackMap(es, t, trig);
    RotationStack(es, t, trig);
    StackIsOneMap(es, t, trig, ps, i);
    StackIsOneMap(es, t, trig, ps, j);
    var qs := AfterStack(es, t, trig, ps);
    RotationKeepsLength(m, ps[i].x, ps[i].y, qs[i].x, qs[i].y);
    Differences(m, ps[i], ps[j]);
    RotationKeepsLength(m, ps[i].x - ps[j].x, ps[i].y - ps[j].y, qs[i].x - qs[j].x, qs[i].y - qs[j].y);
  }

  function Square(x: real): real { x * x }

  lemma Differences(m: Affine, p: IldaPoint, q: IldaPoint)
    ensures Mapped(m, p).x - Mapped(m, q).x == m.xx * (p.x - q.x) + m.xy * (p.y - q.y)
    ensures Mapped(m, p).y - Mapped(m, q).y == m.yx * (p.x - q.x) + m.yy * (p.y - q.y)
  {}

  lemma RotationKeepsLength(m: Affine, x: real, y: real, u: real, v: real)
    requires Rotation(m) && u == m.xx * x + m.xy * y && v == m.yx * x + m.yy * y
    ensures Square(u) + Square(v) == Square(x) + Square(y)
  {
    var a, b := m.xx, m.yx;
    assert u == a * x - b * y && v == b * x + a * y;
    assert Square(u) + Square(v) == (a * a + b * b) * (x * x + y * y);
  }
}
