/** The discrete Fourier transform as a plain sum, and the laws the fast form rests on. */
module Dft {
  import opened Complex

  /** Sum of x[m] * w^(m*k) over the first `count` samples. */
  function DftSum(x: seq<Complex>, w: Complex, k: nat, count: nat): Complex
    requires count <= |x|
  {
    if count == 0 then ZERO
    else Add(DftSum(x, w, k, count - 1), Mul(x[count - 1], Pow(w, (count - 1) * k)))
  }

  /** The whole transform of x for the primitive root w. */
  function Transform(x: seq<Complex>, w: Complex): (y: seq<Complex>)
    ensures |y| == |x|
  {
    seq(|x|, k requires 0 <= k < |x| => DftSum(x, w, k, |x|))
  }

  /** Horner form of the polynomial with coefficients x, used by every proof below. */
  ghost function Eval(x: seq<Complex>, z: Complex): Complex {
    if |x| == 0 then ZERO else Add(x[0], Mul(z, Eval(x[1..], z)))
  }

  lemma {:induction false} EvalSnoc(x: seq<Complex>, c: Complex, z: Complex)
    ensures Eval(x + [c], z) == Add(Eval(x, z), Mul(c, Pow(z, |x|)))
  {
    hide Mul;
    if |x| == 0 {
      MulOne(c);
      MulZero(z);
      assert Eval([c], z) == Add(c, Mul(z, Eval([c][1..], z)));
    } else {
      EvalSnoc(x[1..], c, z);
      assert (x + [c])[1..] == x[1..] + [c];
      var e, p := Eval(x[1..], z), Pow(z, |x| - 1);
      MulAdd(z, e, Mul(c, p));
      calc {
        Mul(z, Mul(c, p));
        { MulComm(z, Mul(c, p)); }
        Mul(Mul(c, p), z);
        { MulAssoc(c, p, z); }
        Mul(c, Pow(z, |x|));
      }
    }
  }

  lemma {:induction false} EvalIsSum(x: seq<Complex>, w: Complex, k: nat, count: nat)
    requires count <= |x|
    ensures Eval(x[..count], Pow(w, k)) == DftSum(x, w, k, count)
  {
    hide Mul;
    if count == 0 {
    } else {
      EvalIsSum(x, w, k, count - 1);
      assert x[..count] == x[..count - 1] + [x[count - 1]];
      EvalSnoc(x[..count - 1], x[count - 1], Pow(w, k));
      PowMul(w, k, count - 1);
    }
  }

  lemma TransformIsEval(x: seq<Complex>, w: Complex, k: nat)
    requires k < |x|
    ensures Transform(x, w)[k] == Eval(x, Pow(w, k))
  {
    EvalIsSum(x, w, k, |x|);
    assert x[..|x|] == x;
  }

  // ---- the even/odd split --------------------------------------------------

  ghost function Evens(x: seq<Complex>): (e: seq<Complex>)
    requires |x| % 2 == 0
    ensures |e| == |x| / 2
  {
    seq(|x| / 2, i requires 0 <= i < |x| / 2 => x[2 * i])
  }

  ghost function Odds(x: seq<Complex>): (o: seq<Complex>)
    requires |x| % 2 == 0
    ensures |o| == |x| / 2
  {
    seq(|x| / 2, i requires 0 <= i < |x| / 2 => x[2 * i + 1])
  }

  lemma SplitTail(x: seq<Complex>)
    requires |x| % 2 == 0 && |x| > 0
    ensures Evens(x) == [x[0]] + Evens(x[2..])
    ensures Odds(x) == [x[1]] + Odds(x[2..])
  {}

  /** x(z) = even(z^2) + z * odd(z^2). */
  lemma {:induction false} EvenOddSplit(x: seq<Complex>, z: Complex)
    requires |x| % 2 == 0
    ensures Eval(x, z) == Add(Eval(Evens(x), Mul(z, z)), Mul(z, Eval(Odds(x), Mul(z, z))))
  {
    hide Mul;
    if |x| == 0 {
      MulZero(z);
    } else {
      SplitTail(x);
      EvenOddSplit(x[2..], z);
      var zz := Mul(z, z);
      var e, o := Eval(Evens(x[2..]), zz), Eval(Odds(x[2..]), zz);
      assert Eval(Evens(x), zz) == Add(x[0], Mul(zz, e)) by { assert Evens(x)[1..] == Evens(x[2..]); }
      assert Eval(Odds(x), zz) == Add(x[1], Mul(zz, o)) by { assert Odds(x)[1..] == Odds(x[2..]); }
      assert Eval(x, z) == Add(x[0], Mul(z, Add(x[1], Mul(z, Add(e, Mul(z, o)))))) by {
        assert x[1..][1..] == x[2..];
        assert Eval(x[1..], z) == Add(x[1], Mul(z, Eval(x[2..], z)));
      }
      MulAdd(z, x[1], Mul(z, Add(e, Mul(z, o))));
      MulAssoc(z, z, Add(e, Mul(z, o)));
      MulAdd(zz, e, Mul(z, o));
      MulAdd(z, x[1], Mul(zz, o));
      MulAssoc(zz, z, o);
      MulAssoc(z, zz, o);
      MulAssoc(z, z, z);
    }
  }

  /** The two outputs of one butterfly are the transform at z and at -z. */
  lemma ButterflyIsEval(x: seq<Complex>, z: Complex)
    requires |x| % 2 == 0
    ensures var u, v := Eval(Evens(x), Mul(z, z)), Mul(Eval(Odds(x), Mul(z, z)), z);
            Eval(x, z) == Add(u, v) && Eval(x, Mul(z, MINUS_ONE)) == Sub(u, v)
  {
    hide Mul;
    var zz := Mul(z, z);
    var o := Eval(Odds(x), zz);
    EvenOddSplit(x, z);
    MulComm(o, z);
    var nz := Mul(z, MINUS_ONE);
    EvenOddSplit(x, nz);
    assert Mul(nz, nz) == zz && Mul(nz, o) == Sub(ZERO, Mul(z, o)) by { NegateFactor(z, o); }
  }

  lemma NegateFactor(z: Complex, o: Complex)
    ensures Mul(Mul(z, MINUS_ONE), Mul(z, MINUS_ONE)) == Mul(z, z)
    ensures Mul(Mul(z, MINUS_ONE), o) == Sub(ZERO, Mul(z, o))
  {
    assert Mul(z, MINUS_ONE) == Complex(-z.re, -z.im);
  }

  // ---- consequences for the spectrum ---------------------------------------

  /** Sum of squared magnitudes. */
  ghost function Energy(x: seq<Complex>): real {
    if |x| == 0 then 0.0 else NormSq(x[0]) + Energy(x[1..])
  }

  lemma {:induction false} EnergySplit(x: seq<Complex>)
    requires |x| % 2 == 0
    ensures Energy(x) == Energy(Evens(x)) + Energy(Odds(x))
  {
    hide NormSq;
    if |x| == 0 {
    } else {
      SplitTail(x);
      EnergySplit(x[2..]);
      assert x[1..][1..] == x[2..];
      assert Evens(x)[1..] == Evens(x[2..]) && Odds(x)[1..] == Odds(x[2..]);
    }
  }

  lemma {:induction false} EnergyConcat(x: seq<Complex>, y: seq<Complex>)
    ensures Energy(x + y) == Energy(x) + Energy(y)
  {
    hide NormSq;
    if |x| == 0 {
      assert x + y == y;
    } else {
      EnergyConcat(x[1..], y);
      assert (x + y)[1..] == x[1..] + y;
    }
  }

  /** Real input: the transform at the conjugate point is the conjugate value. */
  lemma {:induction false} EvalConj(x: seq<Complex>, z: Complex)
    requires forall m :: 0 <= m < |x| ==> x[m].im == 0.0
    ensures Eval(x, Conj(z)) == Conj(Eval(x, z))
  {
    hide Mul;
    if |x| == 0 {
    } else {
      EvalConj(x[1..], z);
      ConjMul(z, Eval(x[1..], z));
    }
  }
}
