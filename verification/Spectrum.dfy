/** Properties of the spectrum the FFT leaves behind. */
module Spectrum {
  import opened Bits
  import opened Complex
  import opened Dft
  import opened AudioAnalysis

  lemma {:induction false} ButterflyEnergy(lo: seq<Complex>, hi: seq<Complex>, u: seq<Complex>, v: seq<Complex>)
    requires |lo| == |hi| == |u| == |v|
    requires forall k :: 0 <= k < |u| ==>
      NormSq(lo[k]) + NormSq(hi[k]) == 2.0 * NormSq(u[k]) + 2.0 * NormSq(v[k])
    ensures Energy(lo) + Energy(hi) == 2.0 * (Energy(u) + Energy(v))
  {
    hide NormSq;
    if |u| == 0 {
    } else {
      ButterflyEnergy(lo[1..], hi[1..], u[1..], v[1..]);
    }
  }

  /** One butterfly output pair of the full transform, from the half transforms. */
  lemma HalfTransforms(x: seq<Complex>, root: nat -> Complex, p: nat, s: nat, k: nat)
    requires s < p && |x| == Pow2(s + 1) && RootsUpTo(root, Pow2(p)) && k < Pow2(s)
    ensures var u, v := Transform(Evens(x), root(Pow2(s)))[k], Transform(Odds(x), root(Pow2(s)))[k];
            var y, z := Transform(x, root(|x|)), Pow(root(|x|), k);
            y[k] == Add(u, Mul(v, z)) && y[k + Pow2(s)] == Sub(u, Mul(v, z))
  {
    hide Mul, Add, Sub, Transform, Evens, Odds;
    var w, z := root(|x|), Pow(root(|x|), k);
    TwiddleSquare(root, p, s, k);
    ButterflyIsEval(x, z);
    TransformIsEval(x, w, k);
    TransformIsEval(x, w, k + Pow2(s));
    TransformIsEval(Evens(x), root(Pow2(s)), k);
    TransformIsEval(Odds(x), root(Pow2(s)), k);
    HalfTurn(root, p, s);
    PowAdd(w, k, Pow2(s));
  }

  lemma PairEnergy(x: seq<Complex>, root: nat -> Complex, p: nat, s: nat, k: nat)
    requires s < p && |x| == Pow2(s + 1) && RootsUpTo(root, Pow2(p)) && UnitRoots(root, Pow2(p)) && k < Pow2(s)
    ensures var y := Transform(x, root(|x|));
            var u, v := Transform(Evens(x), root(Pow2(s)))[k], Transform(Odds(x), root(Pow2(s)))[k];
            NormSq(y[k]) + NormSq(y[k + Pow2(s)]) == 2.0 * NormSq(u) + 2.0 * NormSq(v)
  {
    hide NormSq, Mul, Add, Sub, Transform, RootsUpTo, Evens, Odds, Pow;
    var u, v := Transform(Evens(x), root(Pow2(s)))[k], Transform(Odds(x), root(Pow2(s)))[k];
    Pow2Mono(s + 1, p);
    assert UnitRoot(root, s + 1);
    HalfTransforms(x, root, p, s, k);
    TwistKeepsEnergy(v, root(|x|), k);
    Parallelogram(u, Mul(v, Pow(root(|x|), k)));
  }

  /** A transform has twice the total energy of its two half transforms. */
  lemma HalvesEnergy(x: seq<Complex>, root: nat -> Complex, p: nat, s: nat)
    requires s < p && |x| == Pow2(s + 1) && RootsUpTo(root, Pow2(p)) && UnitRoots(root, Pow2(p))
    ensures Energy(Transform(x, root(|x|))) ==
            2.0 * (Energy(Transform(Evens(x), root(Pow2(s)))) + Energy(Transform(Odds(x), root(Pow2(s)))))
  {
    hide NormSq, Transform, RootsUpTo, UnitRoots, Evens, Odds, Energy;
    var h := Pow2(s);
    var e, o := Transform(Evens(x), root(h)), Transform(Odds(x), root(h));
    var y := Transform(x, root(|x|));
    var lo, hi := y[..h], y[h..];
    forall k | 0 <= k < h
      ensures NormSq(lo[k]) + NormSq(hi[k]) == 2.0 * NormSq(e[k]) + 2.0 * NormSq(o[k])
    {
      PairEnergy(x, root, p, s, k);
    }
    ButterflyEnergy(lo, hi, e, o);
    EnergyConcat(lo, hi);
    assert y == lo + hi;
  }

  // ---- one pass over the buffer --------------------------------------------

  /** One pass of the stage loop over any buffer o exactly doubles its energy. */
  lemma StageEnergy(o: seq<Complex>, a: seq<Complex>, len: nat, w: Complex)
    requires len > 0 && len % 2 == 0 && |o| == |a| && |o| % len == 0 && NormSq(w) == 1.0
    requires forall t :: 0 <= t < |a| ==> a[t] == Butterfly(o, len, w, t)
    ensures Energy(a) == 2.0 * Energy(o)
  {
    hide Butterfly, Energy, NormSq;
    BlocksEnergy(o, a, len, w, 0);
    assert a[0..] == a && o[0..] == o;
  }

  lemma {:induction false} BlocksEnergy(o: seq<Complex>, a: seq<Complex>, len: nat, w: Complex, i: nat)
    requires len > 0 && len % 2 == 0 && |o| == |a| && |o| % len == 0 && NormSq(w) == 1.0
    requires forall t :: 0 <= t < |a| ==> a[t] == Butterfly(o, len, w, t)
    requires i <= |o| && i % len == 0
    ensures Energy(a[i..]) == 2.0 * Energy(o[i..])
    decreases |o| - i
  {
    hide Butterfly, Energy, NormSq;
    if i == |o| {
      NoEnergy(a[i..]);
      NoEnergy(o[i..]);
    } else {
      BlockFits(|o|, len, i);
      NextBlock(i, len);
      BlocksEnergy(o, a, len, w, i + len);
      BlockEnergy(o, a, len, w, i);
      EnergyConcat(a[i..i + len], a[i + len..]);
      EnergyConcat(o[i..i + len], o[i + len..]);
      assert a[i..] == a[i..i + len] + a[i + len..] && o[i..] == o[i..i + len] + o[i + len..];
    }
  }

  lemma NoEnergy(x: seq<Complex>)
    requires |x| == 0
    ensures Energy(x) == 0.0
  {}

  lemma BlockEnergy(o: seq<Complex>, a: seq<Complex>, len: nat, w: Complex, i: nat)
    requires len > 0 && len % 2 == 0 && |o| == |a| && |o| % len == 0 && NormSq(w) == 1.0
    requires forall t :: 0 <= t < |a| ==> a[t] == Butterfly(o, len, w, t)
    requires i + len <= |o| && i % len == 0
    ensures Energy(a[i..i + len]) == 2.0 * Energy(o[i..i + len])
  {
    hide Energy, NormSq, Mul, Add, Sub, Pow;
    var half := len / 2;
    var u, v, lo, hi := o[i..i + half], o[i + half..i + len], a[i..i + half], a[i + half..i + len];
    forall k | 0 <= k < half
      ensures NormSq(lo[k]) + NormSq(hi[k]) == 2.0 * NormSq(u[k]) + 2.0 * NormSq(v[k])
    {
      ModInBlock(i, len, k);
      ModInBlock(i, len, k + half);
      assert lo[k] == a[i + k] == Butterfly(o, len, w, i + k);
      assert hi[k] == a[i + (k + half)] == Butterfly(o, len, w, i + (k + half));
      TwistKeepsEnergy(v[k], w, k);
      Parallelogram(u[k], Mul(v[k], Pow(w, k)));
    }
    ButterflyEnergy(lo, hi, u, v);
    EnergyConcat(lo, hi);
    EnergyConcat(u, v);
    assert a[i..i + len] == lo + hi && o[i..i + len] == u + v;
  }

  lemma TwistKeepsEnergy(v: Complex, w: Complex, k: nat)
    requires NormSq(w) == 1.0
    ensures NormSq(Mul(v, Pow(w, k))) == NormSq(v)
  {
    hide Mul, NormSq;
    PowUnit(w, k);
    NormSqMul(v, Pow(w, k));
  }

  /** Parseval: the transform multiplies total energy by the number of samples. */
  lemma {:induction false} Parseval(x: seq<Complex>, root: nat -> Complex, p: nat, s: nat)
    requires s <= p && |x| == Pow2(s) && RootsUpTo(root, Pow2(p)) && UnitRoots(root, Pow2(p))
    ensures Energy(Transform(x, root(|x|))) == |x| as real * Energy(x)
    decreases s
  {
    hide NormSq, Transform, RootsUpTo, UnitRoots, Energy, Evens, Odds;
    if s == 0 {
      SingleSample(x, root(1));
    } else {
      var e, o := Evens(x), Odds(x);
      HalvesEnergy(x, root, p, s - 1);
      EnergySplit(x);
      Parseval(e, root, p, s - 1);
      Parseval(o, root, p, s - 1);
      ScaleSum(|x|, |e|, |o|, Energy(e), Energy(o), Energy(x));
    }
  }

  lemma ScaleSum(n: nat, h: nat, h': nat, a: real, b: real, e: real)
    requires n == 2 * h && h' == h && e == a + b
    ensures n as real * e == 2.0 * (h as real * a + h' as real * b)
  {}

  lemma SingleSample(x: seq<Complex>, w: Complex)
    requires |x| == 1
    ensures Transform(x, w) == x
  {
    TransformIsEval(x, w, 0);
    MulZero(ONE);
    assert Eval(x, ONE) == Add(x[0], Mul(ONE, Eval(x[1..], ONE)));
  }

  /** After the in-place FFT the sum of |a[k]|^2 is n times the sum of |a0[m]|^2. */
  lemma FftConservesEnergy(x: seq<Complex>, root: nat -> Complex)
    requires IsPowerOfTwo(|x|) && RootsUpTo(root, |x|) && UnitRoots(root, |x|)
    ensures Energy(Transform(x, root(|x|))) == |x| as real * Energy(x)
  {
    PowerOfTwoExactly(|x|);
    Parseval(x, root, Log2(|x|), Log2(|x|));
  }

  /** Real input: the upper half of the spectrum mirrors the lower half,
      so reading bins 1 .. n/2 - 1 loses nothing. */
  lemma RealInputMirrors(x: seq<Complex>, root: nat -> Complex, k: nat)
    requires IsPowerOfTwo(|x|) && RootsUpTo(root, |x|) && UnitRoots(root, |x|)
    requires forall m :: 0 <= m < |x| ==> x[m].im == 0.0
    requires 0 < k < |x|
    ensures Transform(x, root(|x|))[|x| - k] == Conj(Transform(x, root(|x|))[k])
  {
    hide NormSq, Mul, Transform;
    PowerOfTwoExactly(|x|);
    var p := Log2(|x|);
    var w := root(|x|);
    assert UnitRoot(root, p);
    PowUnit(w, k);
    PowAdd(w, k, |x| - k);
    FullTurn(root, p);
    UnitInverse(Pow(w, k), Pow(w, |x| - k));
    TransformIsEval(x, w, k);
    TransformIsEval(x, w, |x| - k);
    EvalConj(x, Pow(w, k));
  }

  lemma FullTurn(root: nat -> Complex, p: nat)
    requires p >= 1 && RootsUpTo(root, Pow2(p))
    ensures Pow(root(Pow2(p)), Pow2(p)) == ONE
  {
    hide Pow, Mul, RootsUpTo;
    HalfTurn(root, p, p - 1);
    MinusOneSquared();
    PowAdd(root(Pow2(p)), Pow2(p - 1), Pow2(p - 1));
  }

  /** The exact twiddle factors for blocks of two and four samples. */
  function QuarterTurnRoots(n: nat): Complex {
    if n == 2 then MINUS_ONE else if n == 4 then Complex(0.0, -1.0) else ONE
  }

  /** The hypotheses on the roots can be met. */
  lemma RootsExist()
    ensures RootsUpTo(QuarterTurnRoots, 4) && UnitRoots(QuarterTurnRoots, 4)
    ensures IsPowerOfTwo(4) && IsPowerOfTwo(2)
  {}
}
