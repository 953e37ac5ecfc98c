/** Level and band energies of one block of samples, read off the FFT's spectrum. */
module AudioFeatures {
  import opened Bits
  import opened Complex
  import opened Dft
  import opened AudioAnalysis
  import opened Spectrum

  datatype AudioFeatures = AudioFeatures(level: real, bass: real, mid: real, high: real)

  /** Square root, magnitude, Hann window and twiddle factors. */
  datatype Numeric = Numeric(sqrt: real -> real, abs: Complex -> real, window: (nat, nat) -> real,
                             root: nat -> Complex)

  function SumSquares(xs: seq<real>): real {
    if |xs| == 0 then 0.0 else SumSquares(xs[..|xs| - 1]) + xs[|xs| - 1] * xs[|xs| - 1]
  }

  function Windowed(xs: seq<real>, window: (nat, nat) -> real): (y: seq<Complex>)
    ensures |y| == |xs|
  {
    seq(|xs|, i requires 0 <= i < |xs| => Complex(xs[i] * window(i, |xs|), 0.0))
  }

  function Frequency(k: nat, n: nat, sampleRate: real): real
    requires n > 0
  {
    k as real * sampleRate / n as real
  }

  /** Magnitudes of the bins 1 .. count - 1 whose frequency lies in [lo, hi). */
  function BandSum(y: seq<Complex>, abs: Complex -> real, rate: real, lo: real, hi: real, count: nat): real
    requires count <= |y|
  {
    if count <= 1 then 0.0
    else
      BandSum(y, abs, rate, lo, hi, count - 1)
      + if lo <= Frequency(count - 1, |y|, rate) < hi then abs(y[count - 1]) else 0.0
  }

  /** Bin k of n lies in a band exactly when k times the sample rate lies between n times its ends. */
  lemma BinInBand(k: nat, n: nat, rate: real, lo: real, hi: real)
    requires n > 0
    ensures lo <= Frequency(k, n, rate) < hi <==> lo * n as real <= k as real * rate < hi * n as real
  {
    var f, m := Frequency(k, n, rate), n as real;
    assert f * m == k as real * rate;
    OrderScales(lo, f, m);
    OrderScales(hi, f, m);
  }

  lemma OrderScales(a: real, b: real, m: real)
    requires m > 0.0
    ensures a <= b <==> a * m <= b * m
  {
    assert b * m - a * m == (b - a) * m;
  }

  /** Changing one bin changes a band by the change of its magnitude, when it is one of the bins
      1 .. count - 1 and lies in the band, and not at all otherwise. */
  lemma {:induction false} BandSumChange(y: seq<Complex>, abs: Complex -> real, rate: real, lo: real, hi: real,
                                         count: nat, k: nat, v: Complex)
    requires count <= |y| && k < |y|
    ensures BandSum(y[k := v], abs, rate, lo, hi, count) - BandSum(y, abs, rate, lo, hi, count)
         == if 1 <= k < count && lo * |y| as real <= k as real * rate < hi * |y| as real then abs(v) - abs(y[k])
            else 0.0
  {
    hide Frequency;
    if count <= 1 {
    } else {
      BandSumChange(y, abs, rate, lo, hi, count - 1, k, v);
      BinInBand(k, |y|, rate, lo, hi);
    }
  }

  /** A silent spectrum has silent bands. */
  lemma {:induction false} SilentBands(y: seq<Complex>, abs: Complex -> real, rate: real, lo: real, hi: real, count: nat)
    requires count <= |y| && forall k :: 0 <= k < |y| ==> abs(y[k]) == 0.0
    ensures BandSum(y, abs, rate, lo, hi, count) == 0.0
  {
    hide Frequency;
    if count <= 1 {
    } else {
      SilentBands(y, abs, rate, lo, hi, count - 1);
    }
  }

  /** The energy of the windowed samples is the sum of their squares, and the spectrum holds n
      times as much: nothing of the block is lost before the bands are taken. */
  lemma WindowedEnergy(xs: seq<real>, window: (nat, nat) -> real, root: nat -> Complex)
    requires IsPowerOfTwo(|xs|) && RootsUpTo(root, |xs|) && UnitRoots(root, |xs|)
    ensures Energy(Transform(Windowed(xs, window), root(|xs|)))
         == |xs| as real * SumSquares(seq(|xs|, i requires 0 <= i < |xs| => xs[i] * window(i, |xs|)))
  {
    hide Energy, Transform, SumSquares, RootsUpTo, UnitRoots;
    var y := seq(|xs|, i requires 0 <= i < |xs| => xs[i] * window(i, |xs|));
    FftConservesEnergy(Windowed(xs, window), root);
    RealEnergy(Windowed(xs, window), y);
  }

  lemma {:induction false} RealEnergy(x: seq<Complex>, y: seq<real>)
    requires |x| == |y| && forall i :: 0 <= i < |x| ==> x[i] == Complex(y[i], 0.0)
    ensures Energy(x) == SumSquares(y)
  {
    if |x| == 0 {
    } else {
      var n := |x| - 1;
      RealEnergy(x[..n], y[..n]);
      assert x == x[..n] + [x[n]];
      EnergyConcat(x[..n], [x[n]]);
      assert Energy([x[n]]) == NormSq(x[n]) + Energy([x[n]][1..]);
    }
  }

  /** Adjoining bands add up: no bin is counted twice or dropped at a boundary. */
  lemma {:induction false} BandsJoin(y: seq<Complex>, abs: Complex -> real, rate: real, a: real, b: real, c: real,
                                     count: nat)
    requires count <= |y| && a <= b <= c
    ensures BandSum(y, abs, rate, a, b, count) + BandSum(y, abs, rate, b, c, count)
         == BandSum(y, abs, rate, a, c, count)
  {
    hide Frequency;
    if count <= 1 {
    } else {
      BandsJoin(y, abs, rate, a, b, c, count - 1);
    }
  }

  method Bands(y: array<Complex>, abs: Complex -> real, rate: real) returns (bass: real, mid: real, high: real)
    requires y.Length > 0
    ensures bass == BandSum(y[..], abs, rate, 20.0, 250.0, y.Length / 2)
    ensures mid == BandSum(y[..], abs, rate, 250.0, 4000.0, y.Length / 2)
    ensures high == BandSum(y[..], abs, rate, 4000.0, 20000.0, y.Length / 2)
  {
    hide Frequency;
    bass, mid, high := 0.0, 0.0, 0.0;
    var n := y.Length;
    var k := 1;
    while k < n / 2
      invariant 1 <= k && (k <= n / 2 || k == 1)
      invariant k <= n
      invariant bass == BandSum(y[..], abs, rate, 20.0, 250.0, k)
      invariant mid == BandSum(y[..], abs, rate, 250.0, 4000.0, k)
      invariant high == BandSum(y[..], abs, rate, 4000.0, 20000.0, k)
    {
      var freq := Frequency(k, n, rate);
      var mag := abs(y[k]);
      if freq >= 20.0 && freq < 250.0 {
        bass := bass + mag;
      } else if freq >= 250.0 && freq < 4000.0 {
        mid := mid + mag;
      } else if freq >= 4000.0 && freq < 20000.0 {
        high := high + mag;
      }
      k := k + 1;
    }
  }

  /** No samples give silence; a block that is not a power of two, or a bad rate, gives the
      level only; otherwise the bands are sums over the transform of the windowed block. */
  method Analyze(samples: seq<real>, sampleRate: real, num: Numeric) returns (f: AudioFeatures)
    requires IsPowerOfTwo(|samples|) ==> RootsUpTo(num.root, |samples|)
    ensures |samples| == 0 ==> f == AudioFeatures(0.0, 0.0, 0.0, 0.0)
    ensures |samples| > 0 ==> f.level == num.sqrt(SumSquares(samples) / |samples| as real)
    ensures !IsPowerOfTwo(|samples|) || sampleRate <= 0.0 ==> f.bass == f.mid == f.high == 0.0
    ensures IsPowerOfTwo(|samples|) && sampleRate > 0.0 ==>
      var y := Transform(Windowed(samples, num.window), num.root(|samples|));
      var scale, half := 2.0 / |samples| as real, |samples| / 2;
      && f.bass == BandSum(y, num.abs, sampleRate, 20.0, 250.0, half) * scale
      && f.mid == BandSum(y, num.abs, sampleRate, 250.0, 4000.0, half) * scale
      && f.high == BandSum(y, num.abs, sampleRate, 4000.0, 20000.0, half) * scale
  {
    hide Transform, BandSum, And, RootsUpTo, Mul;
    f := AudioFeatures(0.0, 0.0, 0.0, 0.0);
    var n := |samples|;
    if n == 0 {
      return;
    }
    var sumSq := MeanSquareTotal(samples);
    f := f.(level := num.sqrt(sumSq / n as real));
    if !IsPowerOfTwo(n) || sampleRate <= 0.0 {
      return;
    }
    var spec := new Complex[n](i requires 0 <= i < n => Complex(samples[i] * num.window(i, n), 0.0));
    assert spec[..] == Windowed(samples, num.window);
    Fft(spec, num.root);
    var bass, mid, high := Bands(spec, num.abs, sampleRate);
    var scale := 2.0 / n as real;
    f := f.(bass := bass * scale, mid := mid * scale, high := high * scale);
  }

  method MeanSquareTotal(samples: seq<real>) returns (sum: real)
    ensures sum == SumSquares(samples)
  {
    sum := 0.0;
    for i := 0 to |samples|
      invariant sum == SumSquares(samples[..i])
    {
      assert samples[..i + 1][..i] == samples[..i];
      sum := sum + samples[i] * samples[i];
    }
    assert samples[..|samples|] == samples;
  }
}
