/** Complex numbers over exact reals: the sample type of the FFT buffer. */
module Complex {

  datatype Complex = Complex(re: real, im: real)

  const ZERO := Complex(0.0, 0.0)
  const ONE := Complex(1.0, 0.0)
  const MINUS_ONE := Complex(-1.0, 0.0)

  function Add(a: Complex, b: Complex): Complex {
    Complex(a.re + b.re, a.im + b.im)
  }

  function Sub(a: Complex, b: Complex): Complex {
    Complex(a.re - b.re, a.im - b.im)
  }

  function Mul(a: Complex, b: Complex): Complex {
    Complex(a.re * b.re - a.im * b.im, a.re * b.im + a.im * b.re)
  }

  function Conj(a: Complex): Complex {
    Complex(a.re, -a.im)
  }

  /** Squared magnitude. */
  function NormSq(a: Complex): real {
    a.re * a.re + a.im * a.im
  }

  /** z^k, built in the order of the running product `w *= wlen`. */
  function Pow(z: Complex, k: nat): Complex {
    if k == 0 then ONE else Mul(Pow(z, k - 1), z)
  }

  lemma MulComm(a: Complex, b: Complex)
    ensures Mul(a, b) == Mul(b, a)
  {}

  lemma MulAssoc(a: Complex, b: Complex, c: Complex)
    ensures Mul(Mul(a, b), c) == Mul(a, Mul(b, c))
  {}

  lemma MulAdd(a: Complex, b: Complex, c: Complex)
    ensures Mul(a, Add(b, c)) == Add(Mul(a, b), Mul(a, c))
  {}

  lemma MulOne(a: Complex)
    ensures Mul(a, ONE) == a
    ensures Mul(ONE, a) == a
  {}

  lemma MulZero(a: Complex)
    ensures Mul(a, ZERO) == ZERO
  {}

  lemma MinusOneSquared()
    ensures Mul(MINUS_ONE, MINUS_ONE) == ONE
  {}

  lemma {:induction false} PowAdd(z: Complex, j: nat, k: nat)
    ensures Pow(z, j + k) == Mul(Pow(z, j), Pow(z, k))
  {
    if k == 0 {
      MulOne(Pow(z, j));
    } else {
      PowAdd(z, j, k - 1);
      MulAssoc(Pow(z, j), Pow(z, k - 1), z);
    }
  }

  lemma {:induction false} PowMul(z: Complex, j: nat, k: nat)
    ensures Pow(Pow(z, j), k) == Pow(z, k * j)
    decreases k
  {
    hide Mul;
    if k == 0 {
    } else {
      PowMul(z, j, k - 1);
      PowAdd(z, (k - 1) * j, j);
      assert (k - 1) * j + j == k * j;
    }
  }

  lemma NormSqMul(a: Complex, b: Complex)
    ensures NormSq(Mul(a, b)) == NormSq(a) * NormSq(b)
  {}

  lemma {:induction false} PowUnit(z: Complex, k: nat)
    requires NormSq(z) == 1.0
    ensures NormSq(Pow(z, k)) == 1.0
  {
    if k == 0 {
    } else {
      PowUnit(z, k - 1);
      NormSqMul(Pow(z, k - 1), z);
    }
  }

  lemma ConjMul(a: Complex, b: Complex)
    ensures Conj(Mul(a, b)) == Mul(Conj(a), Conj(b))
  {}

  /** On the unit circle the conjugate is the inverse, and the inverse is unique. */
  lemma UnitInverse(a: Complex, b: Complex)
    requires NormSq(a) == 1.0
    requires Mul(a, b) == ONE
    ensures b == Conj(a)
  {}

  /** Parallelogram law: what one butterfly does to energy. */
  lemma Parallelogram(u: Complex, v: Complex)
    ensures NormSq(Add(u, v)) + NormSq(Sub(u, v)) == 2.0 * NormSq(u) + 2.0 * NormSq(v)
  {}
}
