/** The in-place radix-2 FFT and what its callers rely on. */
module AudioAnalysis {
  import opened Bits
  import opened Complex
  import opened Dft

  /** What the trigonometric twiddle factors satisfy: root(2) = -1 and root(2h)^2 = root(h). */
  ghost predicate RootsUpTo(root: nat -> Complex, n: nat) {
    && (n >= 2 ==> root(2) == MINUS_ONE)
    && forall s: nat | s >= 1 && Pow2(s + 1) <= n :: RootDoubles(root, s)
  }

  ghost predicate RootDoubles(root: nat -> Complex, s: nat) {
    Mul(root(Pow2(s + 1)), root(Pow2(s + 1))) == root(Pow2(s))
  }

  /** Twiddle factors on the unit circle. */
  ghost predicate UnitRoots(root: nat -> Complex, n: nat) {
    forall s: nat | Pow2(s) <= n :: UnitRoot(root, s)
  }

  ghost predicate UnitRoot(root: nat -> Complex, s: nat) {
    NormSq(root(Pow2(s))) == 1.0
  }

  // ---- phase 1: bit-reversal permutation -----------------------------------

  lemma CarryStep(q: nat, m: nat)
    requires m + 1 < Pow2(q + 1) && Rev(q + 1, m) >= Pow2(q)
    ensures q > 0 && m / 2 + 1 < Pow2(q) && Rev(q + 1, m) - Pow2(q) == Rev(q, m / 2)
  {
  }

  /** One reversed-carry increment of j; the scan stops at a nonzero bit. */
  method ReversedIncrement(n: nat, j0: nat, ghost p: nat, ghost i: nat) returns (j: nat)
    requires n == Pow2(p) && i + 1 < n && j0 == Rev(p, i)
    ensures j == Rev(p, i + 1)
  {
    hide And, Xor, Rev;
    NextRevIsRev(p, i);
    j := j0;
    var bit := n / 2;
    ghost var q: nat := p - 1;
    ghost var m: nat := i;
    while And(j, bit) != 0
      invariant bit == Pow2(q) && j < Pow2(q + 1)
      invariant NextRev(q + 1, j) == Rev(p, i + 1)
      invariant m + 1 < Pow2(q + 1) && j == Rev(q + 1, m)
      decreases q
    {
      TopBit(j, q);
      CarryStep(q, m);
      j := Xor(j, bit);
      bit := bit / 2;
      m := m / 2;
      q := q - 1;
    }
    TopBit(j, q);
    j := Xor(j, bit);
  }

  method Swap(a: array<Complex>, i: nat, j: nat)
    requires i < a.Length && j < a.Length
    modifies a
    ensures a[i] == old(a[j]) && a[j] == old(a[i])
    ensures forall t :: 0 <= t < a.Length && t != i && t != j ==> a[t] == old(a[t])
    ensures multiset(a[..]) == multiset(old(a[..]))
  {
    a[i], a[j] := a[j], a[i];
  }

  /** After the pass, slot i holds the sample from slot Rev(i). */
  method BitReverse(a: array<Complex>, ghost p: nat)
    requires a.Length == Pow2(p)
    modifies a
    ensures forall i :: 0 <= i < a.Length ==> a[i] == old(a[Rev(p, i)])
    ensures multiset(a[..]) == multiset(old(a[..]))
  {
    hide Rev;
    var n := a.Length;
    var i, j := 1, 0;
    RevZero(p);
    forall m | 0 <= m < n ensures Rev(p, Rev(p, m)) == m { RevInvolution(p, m); }
    while i < n
      invariant 1 <= i <= n && j == Rev(p, i - 1)
      invariant forall m :: 0 <= m < n ==>
        a[m] == if m < i || Rev(p, m) < i then old(a[Rev(p, m)]) else old(a[m])
      invariant multiset(a[..]) == multiset(old(a[..]))
    {
      j := ReversedIncrement(n, j, p, i - 1);
      if i < j {
        Swap(a, i, j);
      }
      i := i + 1;
    }
  }

  lemma {:induction false} RevZero(p: nat)
    ensures Rev(p, 0) == 0
  {
    if p == 0 {
    } else {
      RevZero(p - 1);
    }
  }

  // ---- phase 2: butterfly stages -------------------------------------------

  /** What one stage of block length `len` leaves at index t, from the buffer o before it. */
  ghost function Butterfly(o: seq<Complex>, len: nat, w: Complex, t: nat): Complex
    requires len > 0 && len % 2 == 0 && |o| % len == 0 && t < |o|
  {
    BlockFits(|o|, len, t);
    var r := t % len;
    if r < len / 2 then Add(o[t], Mul(o[t + len / 2], Pow(w, r)))
    else Sub(o[t - len / 2], Mul(o[t], Pow(w, r - len / 2)))
  }

  /** Blocks tile the buffer: the block holding t lies inside it. */
  lemma BlockFits(n: nat, len: nat, t: nat)
    requires len > 0 && n % len == 0 && t < n
    ensures t % len <= t && t - t % len + len <= n
  {
    var b, c := t / len, n / len;
    assert t == b * len + t % len && n == c * len;
    assert b < c by {
      if b >= c {
        MulLe(c, b, len);
        assert false;
      }
    }
    MulLt(b, c, len);
  }

  lemma ModInBlock(i: nat, len: nat, r: nat)
    requires len > 0 && i % len == 0 && r < len
    ensures (i + r) % len == r
  {
    DivModUnique(i + r, len, i / len, r);
  }

  lemma NextBlock(i: nat, len: nat)
    requires len > 0 && i % len == 0
    ensures (i + len) % len == 0
  {
    assert (i / len + 1) * len == i + len;
    DivModUnique(i + len, len, i / len + 1, 0);
  }

  /** The middle and inner loops: every block of length `len`, every k below len/2. */
  method Stage(a: array<Complex>, len: nat, wlen: Complex)
    requires len > 0 && len % 2 == 0 && a.Length % len == 0
    modifies a
    ensures forall t :: 0 <= t < a.Length ==> a[t] == Butterfly(old(a[..]), len, wlen, t)
  {
    hide Mul, Add, Sub, Pow;
    var n := a.Length;
    ghost var o := a[..];
    var i := 0;
    while i < n
      invariant 0 <= i <= n && i % len == 0
      invariant forall t :: 0 <= t < i ==> a[t] == Butterfly(o, len, wlen, t)
      invariant forall t :: i <= t < n ==> a[t] == o[t]
    {
      BlockFits(n, len, i);
      Block(a, i, len, wlen);
      forall t | i <= t < i + len ensures a[t] == Butterfly(o, len, wlen, t) {
        ModInBlock(i, len, t - i);
      }
      NextBlock(i, len);
      i := i + len;
    }
  }

  /** The inner loop: one block, with the running twiddle w = wlen^k. */
  method Block(a: array<Complex>, i: nat, len: nat, wlen: Complex)
    requires len > 0 && len % 2 == 0 && i + len <= a.Length
    modifies a
    ensures forall t :: i <= t < i + len / 2 ==>
      a[t] == Add(old(a[t]), Mul(old(a[t + len / 2]), Pow(wlen, t - i)))
    ensures forall t :: i + len / 2 <= t < i + len ==>
      a[t] == Sub(old(a[t - len / 2]), Mul(old(a[t]), Pow(wlen, t - len / 2 - i)))
    ensures forall t :: 0 <= t < a.Length && !(i <= t < i + len) ==> a[t] == old(a[t])
  {
    hide Mul, Add, Sub;
    var half := len / 2;
    var w := ONE;
    var k := 0;
    while k < half
      invariant 0 <= k <= half && w == Pow(wlen, k)
      invariant forall t :: i <= t < i + k ==>
        a[t] == Add(old(a[t]), Mul(old(a[t + half]), Pow(wlen, t - i)))
      invariant forall t :: i + half <= t < i + half + k ==>
        a[t] == Sub(old(a[t - half]), Mul(old(a[t]), Pow(wlen, t - half - i)))
      invariant forall t :: 0 <= t < a.Length && !(i <= t < i + k) && !(i + half <= t < i + half + k) ==>
        a[t] == old(a[t])
    {
      var u := a[i + k];
      var v := Mul(a[i + k + half], w);
      a[i + k] := Add(u, v);
      a[i + k + half] := Sub(u, v);
      w := Mul(w, wlen);
      k := k + 1;
    }
  }

  // ---- the stage invariant -------------------------------------------------

  /** Every stride-th sample of x, starting at off. */
  ghost function Decimate(x: seq<Complex>, stride: nat, off: nat, count: nat): (d: seq<Complex>)
    requires off < stride && count * stride <= |x|
    ensures |d| == count
  {
    seq(count, m requires 0 <= m < count => MulLt(m, count, stride); x[m * stride + off])
  }

  lemma DecimateHalves(x: seq<Complex>, stride: nat, off: nat, count: nat)
    requires off < stride && (2 * count) * stride <= |x| && count * (2 * stride) <= |x|
    ensures Evens(Decimate(x, stride, off, 2 * count)) == Decimate(x, 2 * stride, off, count)
    ensures Odds(Decimate(x, stride, off, 2 * count)) == Decimate(x, 2 * stride, off + stride, count)
  {
    forall m: nat | m < count
      ensures (2 * m) * stride == m * (2 * stride) && (2 * m + 1) * stride == m * (2 * stride) + stride
    {}
  }

  /** The samples congruent to Rev(b) modulo 2^(p-s): those block b has merged after s stages. */
  ghost function Group(x: seq<Complex>, p: nat, s: nat, b: nat): (d: seq<Complex>)
    requires s <= p && |x| == Pow2(p)
    ensures |d| == Pow2(s)
  {
    Pow2Add(s, p - s);
    Decimate(x, Pow2(p - s), Rev(p - s, b), Pow2(s))
  }

  /** Bin k of the size-2^s transform of group b. */
  ghost function Bin(x: seq<Complex>, root: nat -> Complex, p: nat, s: nat, b: nat, k: nat): Complex
    requires s <= p && |x| == Pow2(p)
  {
    Eval(Group(x, p, s, b), Pow(root(Pow2(s)), k))
  }

  /** After s stages, index t holds bin t % 2^s of the transform of group t / 2^s. */
  ghost function BlockBin(x: seq<Complex>, root: nat -> Complex, p: nat, s: nat, t: nat): Complex
    requires s <= p && |x| == Pow2(p)
  {
    Bin(x, root, p, s, t / Pow2(s), t % Pow2(s))
  }

  ghost predicate StageDone(x: seq<Complex>, a: seq<Complex>, root: nat -> Complex, p: nat, s: nat)
    requires s <= p && |x| == |a| == Pow2(p)
  {
    forall t :: 0 <= t < |a| ==> a[t] == BlockBin(x, root, p, s, t)
  }

  lemma PowSquare(w: Complex, r: nat)
    ensures Mul(Pow(w, r), Pow(w, r)) == Pow(Mul(w, w), r)
  {
    hide Mul;
    PowAdd(w, r, r);
    PowMul(w, 2, r);
    assert Pow(w, 2) == Mul(w, w) by {
      assert Pow(w, 1) == Mul(Pow(w, 0), w);
      MulOne(w);
    }
    assert r * 2 == r + r;
  }

  /** root(2h)^h = -1: half way round the circle. */
  lemma {:induction false} HalfTurn(root: nat -> Complex, p: nat, s: nat)
    requires s < p && RootsUpTo(root, Pow2(p))
    ensures Pow(root(Pow2(s + 1)), Pow2(s)) == MINUS_ONE
  {
    hide Mul;
    Pow2Mono(s + 1, p);
    var w := root(Pow2(s + 1));
    if s == 0 {
      assert Pow2(1) == 2 && Pow(w, 1) == Mul(Pow(w, 0), w);
      MulOne(w);
    } else {
      HalfTurn(root, p, s - 1);
      assert RootDoubles(root, s);
      var h := Pow2(s - 1);
      PowAdd(w, h, h);
      PowSquare(w, h);
    }
  }

  lemma {:induction false} Pow2Mono(a: nat, b: nat)
    requires a <= b
    ensures Pow2(a) <= Pow2(b)
  {
    if a == b {
    } else {
      Pow2Mono(a, b - 1);
    }
  }

  /** Squaring a twiddle of one stage gives the twiddle of the stage below. */
  lemma TwiddleSquare(root: nat -> Complex, p: nat, s: nat, r: nat)
    requires s < p && RootsUpTo(root, Pow2(p)) && r < Pow2(s)
    ensures var z := Pow(root(Pow2(s + 1)), r); Mul(z, z) == Pow(root(Pow2(s)), r)
  {
    hide Mul;
    Pow2Mono(s + 1, p);
    if s == 0 {
      MulOne(ONE);
    } else {
      assert RootDoubles(root, s);
      PowSquare(root(Pow2(s + 1)), r);
    }
  }

  /** Group b of the next stage interleaves groups 2b and 2b+1 of this one. */
  lemma GroupHalves(x: seq<Complex>, p: nat, s: nat, b: nat)
    requires s < p && |x| == Pow2(p)
    ensures Evens(Group(x, p, s + 1, b)) == Group(x, p, s, 2 * b)
    ensures Odds(Group(x, p, s + 1, b)) == Group(x, p, s, 2 * b + 1)
  {
    hide Decimate, Evens, Odds, Rev;
    var len, stride := Pow2(s), Pow2(p - s - 1);
    Pow2Add(s + 1, p - s - 1);
    Pow2Add(s, p - s);
    RevHalves(p - s - 1, b);
    DecimateHalves(x, stride, Rev(p - s - 1, b), len);
  }

  /** One butterfly combines the bins of two groups into two bins of the merged group. */
  lemma MergeBins(x: seq<Complex>, root: nat -> Complex, p: nat, s: nat, b: nat, r: nat)
    requires s < p && |x| == Pow2(p) && RootsUpTo(root, |x|) && r < Pow2(s)
    ensures var u := Bin(x, root, p, s, 2 * b, r);
            var v := Mul(Bin(x, root, p, s, 2 * b + 1, r), Pow(root(Pow2(s + 1)), r));
            && Bin(x, root, p, s + 1, b, r) == Add(u, v)
            && Bin(x, root, p, s + 1, b, r + Pow2(s)) == Sub(u, v)
  {
    hide Mul, Add, Sub, Group;
    var z := Pow(root(Pow2(s + 1)), r);
    GroupHalves(x, p, s, b);
    TwiddleSquare(root, p, s, r);
    ButterflyIsEval(Group(x, p, s + 1, b), z);
    HalfTurn(root, p, s);
    PowAdd(root(Pow2(s + 1)), r, Pow2(s));
  }

  /** The same, at the buffer indices of the two halves of block b. */
  lemma PairInBlock(x: seq<Complex>, root: nat -> Complex, p: nat, s: nat, b: nat, r: nat)
    requires s < p && |x| == Pow2(p) && RootsUpTo(root, |x|) && r < Pow2(s)
    ensures var len := Pow2(s);
            var t := b * (2 * len) + r;
            var u, v := BlockBin(x, root, p, s, t), Mul(BlockBin(x, root, p, s, t + len), Pow(root(2 * len), r));
            && BlockBin(x, root, p, s + 1, t) == Add(u, v)
            && BlockBin(x, root, p, s + 1, t + len) == Sub(u, v)
  {
    hide Mul, Add, Sub, Bin;
    var len := Pow2(s);
    var t := b * (2 * len) + r;
    DivModUnique(t, 2 * len, b, r);
    DivModUnique(t + len, 2 * len, b, r + len);
    assert b * (2 * len) == (2 * b) * len && (2 * b + 1) * len == (2 * b) * len + len;
    DivModUnique(t, len, 2 * b, r);
    DivModUnique(t + len, len, 2 * b + 1, r);
    MergeBins(x, root, p, s, b, r);
  }

  /** One stage of butterflies turns the size-2^s transforms into size-2^(s+1) transforms. */
  lemma StageStep(x: seq<Complex>, o: seq<Complex>, a: seq<Complex>, root: nat -> Complex, p: nat, s: nat)
    requires s < p && |x| == |o| == |a| == Pow2(p) && RootsUpTo(root, |x|)
    requires StageDone(x, o, root, p, s)
    requires Pow2(p) % Pow2(s + 1) == 0
    requires forall t :: 0 <= t < |a| ==> a[t] == Butterfly(o, Pow2(s + 1), root(Pow2(s + 1)), t)
    ensures StageDone(x, a, root, p, s + 1)
  {
    hide Mul, Add, Sub, BlockBin;
    var len := Pow2(s);
    forall t | 0 <= t < |a| ensures a[t] == BlockBin(x, root, p, s + 1, t) {
      BlockFits(|a|, 2 * len, t);
      var b, r := t / (2 * len), t % (2 * len);
      assert t == b * (2 * len) + r;
      PairInBlock(x, root, p, s, b, if r < len then r else r - len);
    }
  }

  lemma StageZero(x: seq<Complex>, a: seq<Complex>, root: nat -> Complex, p: nat)
    requires |x| == |a| == Pow2(p)
    requires forall i :: 0 <= i < |a| ==> a[i] == x[Rev(p, i)]
    ensures StageDone(x, a, root, p, 0)
  {
    hide Mul;
    forall t | 0 <= t < |a| ensures a[t] == BlockBin(x, root, p, 0, t) {
      var d := Group(x, p, 0, t);
      assert d == [a[t]];
      assert Eval(d, ONE) == Add(a[t], Mul(ONE, Eval(d[1..], ONE)));
      MulZero(ONE);
    }
  }

  lemma StageLast(x: seq<Complex>, a: seq<Complex>, root: nat -> Complex, p: nat)
    requires |x| == |a| == Pow2(p) && StageDone(x, a, root, p, p)
    ensures a == Transform(x, root(|x|))
  {
    hide Mul;
    forall t | 0 <= t < |a| ensures a[t] == Transform(x, root(|x|))[t] {
      assert a[t] == BlockBin(x, root, p, p, t);
      DivModUnique(t, |x|, 0, t);
      assert Group(x, p, p, 0) == x;
      TransformIsEval(x, root(|x|), t);
    }
  }

  lemma StageFits(p: nat, s: nat)
    requires s < p
    ensures Pow2(p) % Pow2(s + 1) == 0
  {
    Pow2Add(s + 1, p - s - 1);
    DivModUnique(Pow2(p), Pow2(s + 1), Pow2(p - s - 1), 0);
  }

  /** The outer loop: block lengths 2, 4, ... up to the whole buffer. */
  method Stages(a: array<Complex>, root: nat -> Complex, ghost x: seq<Complex>, ghost p: nat)
    requires a.Length == |x| == Pow2(p) && RootsUpTo(root, |x|)
    requires StageDone(x, a[..], root, p, 0)
    modifies a
    ensures StageDone(x, a[..], root, p, p)
  {
    hide Mul, Add, Sub, Butterfly, StageDone, RootsUpTo;
    var n := a.Length;
    var len := 2;
    ghost var s: nat := 0;
    while len <= n
      invariant s <= p && len == Pow2(s + 1)
      invariant StageDone(x, a[..], root, p, s)
      decreases p - s
    {
      Pow2Le(s + 1, p);
      StageFits(p, s);
      ghost var o := a[..];
      Stage(a, len, root(len));
      StageStep(x, o, a[..], root, p, s);
      len := len * 2;
      s := s + 1;
    }
    if s < p {
      Pow2Mono(s + 1, p);
    }
  }

  /** The in-place FFT computes the discrete Fourier transform of its input. */
  method Fft(a: array<Complex>, root: nat -> Complex)
    requires IsPowerOfTwo(a.Length)
    requires RootsUpTo(root, a.Length)
    modifies a
    ensures a[..] == Transform(old(a[..]), root(a.Length))
  {
    hide StageDone, RootsUpTo, IsPowerOfTwo, Transform, Rev;
    PowerOfTwoExactly(a.Length);
    ghost var p := Log2(a.Length);
    ghost var x := a[..];
    BitReverse(a, p);
    StageZero(x, a[..], root, p);
    Stages(a, root, x, p);
    StageLast(x, a[..], root, p);
  }

  lemma Pow2Le(a: nat, b: nat)
    requires Pow2(a) <= Pow2(b)
    ensures a <= b
  {}
}
