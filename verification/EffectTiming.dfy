/** What the effects do at each moment of their cycles, in terms of rate, time and index. */
module EffectTiming {
  import opened Bytes
  import opened IldaTypes
  import opened IldaFormat
  import opened ShowTypes
  import opened MotionEffect

  // ---- where in its cycle an effect is -------------------------------------

  lemma FracAt(x: real, k: int, f: real)
    requires x == k as real + f && 0.0 <= f < 1.0
    ensures x.Floor == k && Frac(x) == f
  {
    var d := (x.Floor - k) as real;
    assert d == x.Floor as real - k as real && -1.0 < d < 1.0;
  }

  lemma TriangleAt(x: real, k: int, y: real)
    requires 0.0 <= y <= 1.0 && (x == k as real + y / 2.0 || x == k as real + 1.0 - y / 2.0)
    ensures Triangle(x) == y
  {
    if x == k as real + y / 2.0 {
      FracAt(x, k, y / 2.0);
    } else if y == 0.0 {
      FracAt(x, k + 1, 0.0);
    } else {
      FracAt(x, k, 1.0 - y / 2.0);
    }
  }

  /** A strobe in its k-th cycle: everything stays as it is for the first `amount` of the
      cycle and is blanked for the rest. */
  lemma StrobeAt(e: MotionEffect, t: real, trig: Trig, ps: Points, i: nat, k: int)
    requires e.enabled && e.kind == STROBE && i < |ps|
    requires k as real <= e.rateHz * t < k as real + 1.0
    ensures After(e, t, trig, ps)[i] ==
            if e.rateHz * t < k as real + e.amount then ps[i] else ps[i].(blanked := true)
  {
    hide Frac;
    var c := Cycles(e, t);
    FracAt(c, k, c - k as real);
    assert Keeps(e, t, i, |ps|) <==> c - k as real < e.amount;
  }

  /** A trace whose cursor has come the share y along the shape keeps exactly the points up to
      it: forwards y is what the current cycle has run, in reverse what it has left to run, and
      in ping-pong y rises over half a cycle and falls over the other; a direction that does not
      exist leaves it at the start. */
  lemma TraceAt(e: MotionEffect, t: real, trig: Trig, ps: Points, i: nat, k: int, y: real)
    requires e.enabled && e.kind == TRACE && i < |ps| && 0.0 <= y <= 1.0
    requires
      || (e.direction == FORWARD && e.rateHz * t == k as real + y && y < 1.0)
      || (e.direction == REVERSE && -(e.rateHz * t) == k as real + y && y < 1.0)
      || (e.direction == PING_PONG
          && (e.rateHz * t == k as real + y / 2.0 || e.rateHz * t == k as real + 1.0 - y / 2.0))
      || (e.direction > PING_PONG && y == 0.0)
    ensures After(e, t, trig, ps)[i] ==
            if i as real <= y * (|ps| - 1) as real then ps[i] else ps[i].(blanked := true)
  {
    hide Frac, Triangle;
    PhaseAt(e, t, k, y);
    AlongUpTo(i, |ps|, y);
  }

  lemma PhaseAt(e: MotionEffect, t: real, k: int, y: real)
    requires 0.0 <= y <= 1.0
    requires
      || (e.direction == FORWARD && e.rateHz * t == k as real + y && y < 1.0)
      || (e.direction == REVERSE && -(e.rateHz * t) == k as real + y && y < 1.0)
      || (e.direction == PING_PONG
          && (e.rateHz * t == k as real + y / 2.0 || e.rateHz * t == k as real + 1.0 - y / 2.0))
      || (e.direction > PING_PONG && y == 0.0)
    ensures Phase(e, t) == y
  {
    hide Frac, Triangle;
    var c := Cycles(e, t);
    if e.direction == FORWARD {
      FracAt(c, k, y);
    } else if e.direction == REVERSE {
      FracAt(-c, k, y);
    } else if e.direction == PING_PONG {
      TriangleAt(c, k, y);
    }
  }

  lemma AlongUpTo(i: nat, n: nat, y: real)
    requires i < n && 0.0 <= y
    ensures Along(i, n) <= y <==> i as real <= y * (n - 1) as real
    ensures 0.0 <= Along(i, n) <= 1.0 && i as real == Along(i, n) * (n - 1) as real
  {
    if n > 1 {
      var q, m := i as real / (n - 1) as real, (n - 1) as real;
      assert q * m == i as real;
      assert q <= y ==> q * m <= y * m;
      assert q > y ==> q * m > y * m;
      assert q < 0.0 ==> q * m < 0.0;
      assert q > 1.0 ==> q * m > m;
    }
  }

  // ---- the runner ----------------------------------------------------------

  /** A runner whose cursor is at y along the shape recolours exactly the points whose distance
      from it, going round the ends of the shape if that is shorter, is at most half of
      `amount`. */
  lemma RunnerAt(e: MotionEffect, t: real, trig: Trig, ps: Points, i: nat, k: int, y: real)
    requires e.enabled && e.kind == RUNNER && i < |ps| && 0.0 <= y <= 1.0
    requires
      || (e.direction == FORWARD && e.rateHz * t == k as real + y && y < 1.0)
      || (e.direction == REVERSE && -(e.rateHz * t) == k as real + y && y < 1.0)
      || (e.direction == PING_PONG
          && (e.rateHz * t == k as real + y / 2.0 || e.rateHz * t == k as real + 1.0 - y / 2.0))
      || (e.direction > PING_PONG && y == 0.0)
    ensures var ahead := (if |ps| > 1 then i as real / (|ps| - 1) as real else 0.0) - y;
            var near := -e.amount / 2.0 <= ahead <= e.amount / 2.0
                        || ahead >= 1.0 - e.amount / 2.0 || ahead <= e.amount / 2.0 - 1.0;
            After(e, t, trig, ps)[i] == if near then ps[i].(r := e.r, g := e.g, b := e.b) else ps[i]
  {
    hide Frac, Triangle;
    PhaseAt(e, t, k, y);
    AlongUpTo(i, |ps|, y);
  }

  /** A disabled effect, or one of a kind that does not exist, changes nothing. */
  lemma IdleEffect(e: MotionEffect, t: real, trig: Trig, ps: Points)
    requires !e.enabled || e.kind > 8
    ensures After(e, t, trig, ps) == ps
  {
    hide Cycles;
  }

  // ---- whole cycles --------------------------------------------------------

  /** Every effect that runs in cycles does at t' what it does at t when whole cycles lie between. */
  lemma CyclesRepeat(e: MotionEffect, t: real, t': real, m: int, trig: Trig, ps: Points)
    requires e.kind == RUNNER || e.kind == STROBE || e.kind == COLOR_CYCLE || e.kind == TRACE
    requires e.rateHz * t' == e.rateHz * t + m as real
    ensures After(e, t', trig, ps) == After(e, t, trig, ps)
  {
    hide Frac, Along, InRunner, Rotated, Moved, Scaled, Hue;
    var c, c' := Cycles(e, t), Cycles(e, t');
    FracRepeats(c, m);
    FracRepeats(-c, -m);
    assert c' == c + m as real && -c' == -c + (-m) as real;
    forall i | 0 <= i < |ps| ensures After(e, t', trig, ps)[i] == After(e, t, trig, ps)[i] {
      var h := HueAt(e, t, i, |ps|);
      HueRepeats(h, m);
      HueRepeats(h, -m);
      assert HueAt(e, t', i, |ps|) == if e.direction == REVERSE then h + (-m) as real else h + m as real;
    }
  }

  lemma FracRepeats(x: real, m: int)
    ensures Frac(x + m as real) == Frac(x)
  {
    FracAt(x + m as real, x.Floor + m, x - x.Floor as real);
  }

  lemma HueRepeats(h: real, m: int)
    ensures Hue(h + m as real) == Hue(h)
  {
    hide Frac, ToByte;
    FracRepeats(h, m);
  }

  // ---- colours -------------------------------------------------------------

  /** Hue h lies the share f into sector s of the colour wheel: one channel is full, one is off,
      and the third rises or falls along the sector, to the nearest of its 256 levels. */
  lemma HueOnWheel(h: real, k: int, s: int, f: real)
    requires 6.0 * h == (6 * k + s) as real + f && 0 <= s < 6 && 0.0 <= f < 1.0
    ensures var c := Hue(h);
      && (s == 0 ==> c.r == 255 && c.b == 0 && -0.5 <= c.g as real - 255.0 * f <= 0.5)
      && (s == 1 ==> c.g == 255 && c.b == 0 && -0.5 <= c.r as real - 255.0 * (1.0 - f) <= 0.5)
      && (s == 2 ==> c.r == 0 && c.g == 255 && -0.5 <= c.b as real - 255.0 * f <= 0.5)
      && (s == 3 ==> c.r == 0 && c.b == 255 && -0.5 <= c.g as real - 255.0 * (1.0 - f) <= 0.5)
      && (s == 4 ==> c.g == 0 && c.b == 255 && -0.5 <= c.r as real - 255.0 * f <= 0.5)
      && (s == 5 ==> c.r == 255 && c.g == 0 && -0.5 <= c.b as real - 255.0 * (1.0 - f) <= 0.5)
  {
    hide Frac, ToByte;
    var g := (s as real + f) / 6.0;
    FracAt(h, k, g);
    FracAt(s as real + f, s, f);
    var hh := Frac(h) * 6.0;
    assert hh == s as real + f && hh.Floor == s;
    ToByteNear(f);
    ToByteNear(1.0 - f);
    ToByteEnds();
  }

  lemma ToByteNear(x: real)
    requires 0.0 <= x <= 1.0
    ensures -0.5 <= ToByte(x) as real - 255.0 * x <= 0.5
  {}

  lemma ToByteEnds()
    ensures ToByte(0.0) == 0 && ToByte(1.0) == 255
  {}

  /** A colour cycle gives a lit point the hue that has run so far, backwards in reverse, plus
      its share of the spread along the shape. */
  lemma ColourCycleAt(e: MotionEffect, t: real, trig: Trig, ps: Points, i: nat, h: real)
    requires e.enabled && e.kind == COLOR_CYCLE && i < |ps| && !ps[i].blanked
    requires h == (if e.direction == REVERSE then -(e.rateHz * t) else e.rateHz * t)
                  + e.amount * (if |ps| > 1 then i as real / (|ps| - 1) as real else 0.0)
    ensures var c := Hue(h); After(e, t, trig, ps)[i] == ps[i].(r := c.r, g := c.g, b := c.b)
  {
    hide Hue;
    assert HueAt(e, t, i, |ps|) == h;
  }

  // ---- movement ------------------------------------------------------------

  /** Rotation by the angle swept so far, backwards in reverse; ping-pong swings up to `amount`
      turns either way. */
  lemma RotateAt(e: MotionEffect, t: real, trig: Trig, ps: Points, i: nat, angle: real)
    requires e.enabled && e.kind == ROTATE && i < |ps|
    requires
      || (e.direction == FORWARD && angle == TWO_PI * e.rateHz * t)
      || (e.direction == REVERSE && angle == -(TWO_PI * e.rateHz * t))
      || (e.direction == PING_PONG && angle == TWO_PI * e.amount * trig.sin(TWO_PI * e.rateHz * t))
      || (e.direction > PING_PONG && angle == 0.0)
    ensures After(e, t, trig, ps)[i] ==
            ps[i].(x := ps[i].x * trig.cos(angle) - ps[i].y * trig.sin(angle),
                   y := ps[i].y * trig.cos(angle) + ps[i].x * trig.sin(angle))
  {
    assert RotateAngle(e, t, trig) == angle;
  }

  /** Rotating back undoes rotating forward. */
  lemma RotateBack(e: MotionEffect, t: real, trig: Trig, ps: Points, i: nat)
    requires e.enabled && e.kind == ROTATE && e.direction == FORWARD && i < |ps| && OnCircle(trig)
    requires forall a :: trig.cos(-a) == trig.cos(a) && trig.sin(-a) == -trig.sin(a)
    ensures After(e.(direction := REVERSE), t, trig, After(e, t, trig, ps))[i] == ps[i]
  {
    hide OnCircle, Rotated, Swept;
    var angle, p := Swept(e.rateHz, t), ps[i];
    var c, s := trig.cos(angle), trig.sin(angle);
    assert RotateAngle(e, t, trig) == angle && RotateAngle(e.(direction := REVERSE), t, trig) == -angle;
    assert c * c + s * s == 1.0 by { CircleAt(trig, angle); }
    RotatedBack(c, s, p);
  }

  lemma CircleAt(trig: Trig, a: real)
    requires OnCircle(trig)
    ensures trig.cos(a) * trig.cos(a) + trig.sin(a) * trig.sin(a) == 1.0
  {}

  lemma RotatedBack(c: real, s: real, p: IldaPoint)
    requires c * c + s * s == 1.0
    ensures Rotated(c, -s, Rotated(c, s, p)) == p
  {
    var x, y := p.x * c - p.y * s, p.x * s + p.y * c;
    assert x * c - y * -s == p.x * (c * c + s * s);
    assert x * -s + y * c == p.y * (c * c + s * s);
  }

  /** A shake moves every point by the same offset along one axis, and its reverse by the
      opposite one. */
  lemma WaveAt(e: MotionEffect, t: real, trig: Trig, ps: Points, i: nat)
    requires e.enabled && e.kind == WAVE && i < |ps|
    ensures var swing := e.amount * trig.sin(TWO_PI * e.rateHz * t);
            var offset := if e.direction == REVERSE then -swing else swing;
            After(e, t, trig, ps)[i] ==
            if e.axis == 0 then ps[i].(x := ps[i].x + offset) else ps[i].(y := ps[i].y + offset)
  {}

  /** A bounce stays on one side of the baseline and at most `amount` away from it: `amount`
      times the size of the sine. */
  lemma BounceAt(e: MotionEffect, t: real, trig: Trig, ps: Points, i: nat, u: real)
    requires e.enabled && e.kind == BOUNCE && i < |ps| && e.amount >= 0.0 && 0.0 <= u <= 1.0
    requires u == trig.sin(TWO_PI * e.rateHz * t) || u == -trig.sin(TWO_PI * e.rateHz * t)
    ensures var rise := e.amount * u;
            && 0.0 <= rise <= e.amount
            && After(e, t, trig, ps)[i] ==
               var offset := if e.direction == REVERSE then -rise else rise;
               if e.axis == 0 then ps[i].(x := ps[i].x + offset) else ps[i].(y := ps[i].y + offset)
  {
    var s := trig.sin(Swept(e.rateHz, t));
    assert s == trig.sin(TWO_PI * e.rateHz * t);
    assert Abs(s) == u;
    assert BounceOffset(e, t, trig) == if e.direction == REVERSE then -(e.amount * u) else e.amount * u;
    var rise := Rise(e.amount, u);
  }

  lemma Rise(a: real, u: real) returns (rise: real)
    requires a >= 0.0 && 0.0 <= u <= 1.0
    ensures rise == a * u && 0.0 <= rise && rise <= a
  {
    rise := a * u;
    assert a - rise == a * (1.0 - u);
  }

  /** A pulse scales the shape about the centre by `amount` times the sine above or below its
      own size; its reverse runs the phase backwards. */
  lemma PulseAt(e: MotionEffect, t: real, trig: Trig, ps: Points, i: nat)
    requires e.enabled && e.kind == PULSE && i < |ps|
    ensures var phase := TWO_PI * e.rateHz * t;
            var swing := e.amount * trig.sin(if e.direction == REVERSE then -phase else phase);
            After(e, t, trig, ps)[i] == ps[i].(x := ps[i].x + swing * ps[i].x, y := ps[i].y + swing * ps[i].y)
  {
    var swing := PulseScale(e, t, trig) - 1.0;
    ScaledBy(ps[i].x, swing);
    ScaledBy(ps[i].y, swing);
  }

  lemma ScaledBy(x: real, k: real)
    ensures x * (1.0 + k) == x + k * x
  {}

  // ---- twinkling -----------------------------------------------------------

  /** Twinkling keeps all points at an amount of one and none at zero. */
  lemma TwinkleAt(e: MotionEffect, t: real, trig: Trig, ps: Points, i: nat)
    requires e.enabled && e.kind == TWINKLE && i < |ps|
    ensures e.amount >= 1.0 ==> After(e, t, trig, ps)[i] == ps[i]
    ensures e.amount <= 0.0 ==> After(e, t, trig, ps)[i] == ps[i].(blanked := true)
  {
    hide HashBits, Share, Cycles;
    assert 0.0 <= HashUnit(i, Cycles(e, t).Floor) < 1.0;
  }

  /** In time step k it keeps the points whose hash, as a share of its 24-bit range, is below `amount`. */
  lemma TwinkleByHash(e: MotionEffect, t: real, trig: Trig, ps: Points, i: nat, k: int)
    requires e.enabled && e.kind == TWINKLE && i < |ps|
    requires k as real <= e.rateHz * t < k as real + 1.0
    ensures After(e, t, trig, ps)[i] ==
            if HashUnit(i, k) < e.amount then ps[i] else ps[i].(blanked := true)
  {
    hide HashUnit, Frac;
    var c := Cycles(e, t);
    FracAt(c, k, c - k as real);
  }

  /** The hash of a point and a time step, both as 32-bit words. */
  lemma HashUnitIs(index: bv32, tick: bv32)
    ensures HashUnit(index as nat, tick as int) * 16777216.0 == HashBits(index, tick) as int as real
  {
    hide HashBits;
    Wrapped(index);
    Wrapped(tick);
  }

  lemma Wrapped(n: bv32)
    ensures (n as int % 0x1_0000_0000) as bv32 == n
  {
    WordInRange(n);
    SmallWraps(n as int);
    WordBack(n);
  }

  lemma WordInRange(n: bv32)
    ensures n as int < 0x1_0000_0000
  {}

  lemma WordBack(n: bv32)
    ensures (n as int) as bv32 == n
  {}

  lemma SmallWraps(n: int)
    requires 0 <= n < 0x1_0000_0000
    ensures n % 0x1_0000_0000 == n
  {}

  /** It shows one pattern for a whole time step. */
  lemma TwinkleHolds(e: MotionEffect, t: real, t': real, trig: Trig, ps: Points, k: int)
    requires e.kind == TWINKLE
    requires k as real <= e.rateHz * t < k as real + 1.0 && k as real <= e.rateHz * t' < k as real + 1.0
    ensures After(e, t', trig, ps) == After(e, t, trig, ps)
  {
    hide HashUnit, Frac;
    var c, c' := Cycles(e, t), Cycles(e, t');
    FracAt(c, k, c - k as real);
    FracAt(c', k, c' - k as real);
    hide Cycles;
  }

  /** A larger amount only lights more points. */
  lemma TwinkleGrows(e: MotionEffect, amount: real, t: real, trig: Trig, ps: Points, i: nat)
    requires e.enabled && e.kind == TWINKLE && i < |ps| && amount >= e.amount
    ensures !After(e, t, trig, ps)[i].blanked ==> !After(e.(amount := amount), t, trig, ps)[i].blanked
  {
    hide HashUnit;
    assert Cycles(e.(amount := amount), t) == Cycles(e, t);
  }

  /** Values of the sparkle hash. */
  lemma HashValues()
    ensures HashBits(0, 0) == 0 && HashBits(1, 0) == 16283168 && HashBits(0, 1) == 14083460
    ensures HashBits(2, 3) == 6616270 && HashBits(4095, 1000000) == 13709198
  {}
}
