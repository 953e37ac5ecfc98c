/** Unsigned machine-word arithmetic used by the FFT index computations, on naturals. */
module Bits {

  function Pow2(p: nat): (r: nat)
    ensures r >= 1
  {
    if p == 0 then 1 else 2 * Pow2(p - 1)
  }

  /** Position of the highest set bit. */
  function Log2(n: nat): nat {
    if n <= 1 then 0 else 1 + Log2(n / 2)
  }

  /** Bitwise and. */
  function And(a: nat, b: nat): nat {
    if a == 0 || b == 0 then 0 else (if a % 2 == 1 && b % 2 == 1 then 1 else 0) + 2 * And(a / 2, b / 2)
  }

  /** Bitwise exclusive or. */
  function Xor(a: nat, b: nat): nat
    decreases a + b
  {
    if a == 0 then b else if b == 0 then a else (a + b) % 2 + 2 * Xor(a / 2, b / 2)
  }

  /** The bit trick `n != 0 && (n & (n - 1)) == 0`. */
  predicate IsPowerOfTwo(n: nat) {
    n != 0 && And(n, n - 1) == 0
  }

  lemma {:induction false} AndSelf(n: nat)
    ensures And(n, n) == n
  {
    if n == 0 {
    } else {
      AndSelf(n / 2);
    }
  }

  /** The bit trick accepts exactly the powers of two. */
  lemma {:induction false} PowerOfTwoExactly(n: nat)
    ensures IsPowerOfTwo(n) <==> n >= 1 && n == Pow2(Log2(n))
  {
    if n <= 1 {
    } else if n % 2 == 1 {
      AndSelf(n / 2);
      assert (n - 1) / 2 == n / 2;
      assert And(n, n - 1) == 2 * And(n / 2, n / 2);
    } else {
      PowerOfTwoExactly(n / 2);
      assert (n - 1) / 2 == n / 2 - 1;
      assert And(n, n - 1) == 2 * And(n / 2, n / 2 - 1);
    }
  }

  lemma {:induction false} Pow2Add(a: nat, b: nat)
    ensures Pow2(a + b) == Pow2(a) * Pow2(b)
  {
    if a == 0 {
    } else {
      Pow2Add(a - 1, b);
      assert 2 * (Pow2(a - 1) * Pow2(b)) == (2 * Pow2(a - 1)) * Pow2(b);
    }
  }

  lemma AndStep(a: nat, b: nat)
    requires a > 0 && b > 0 && b % 2 == 0
    ensures And(a, b) == 2 * And(a / 2, b / 2)
  {}

  lemma XorStep(a: nat, b: nat)
    requires a > 0 && b > 0
    ensures Xor(a, b) == (a + b) % 2 + 2 * Xor(a / 2, b / 2)
  {}

  lemma EvenWord(j: nat, b: nat)
    requires j > 0 && b > 0
    ensures And(j, 2 * b) == 2 * And(j / 2, b)
    ensures Xor(j, 2 * b) == j % 2 + 2 * Xor(j / 2, b)
  {
    hide And, Xor;
    var d := 2 * b;
    assert d / 2 == b && d % 2 == 0 && (j + d) % 2 == j % 2;
    AndStep(j, d);
    XorStep(j, d);
  }

  /** Testing and toggling the top bit of a word below 2^(q+1). */
  lemma {:induction false} TopBit(j: nat, q: nat)
    requires j < Pow2(q + 1)
    ensures And(j, Pow2(q)) != 0 <==> j >= Pow2(q)
    ensures Xor(j, Pow2(q)) == if j >= Pow2(q) then j - Pow2(q) else j + Pow2(q)
  {
    if q == 0 {
      assert j == 0 || j == 1;
      assert Pow2(1) == 2;
    } else if j == 0 {
    } else {
      hide And, Xor;
      TopBit(j / 2, q - 1);
      EvenWord(j, Pow2(q - 1));
    }
  }

  // ---- quotients and remainders --------------------------------------------

  lemma MulLe(a: nat, b: nat, d: nat)
    requires a <= b
    ensures a * d <= b * d
  {}

  lemma MulLt(a: nat, b: nat, d: nat)
    requires a < b
    ensures a * d + d <= b * d
  {
    MulLe(a + 1, b, d);
    assert (a + 1) * d == a * d + d;
  }

  lemma DivModUnique(x: nat, d: nat, q: nat, r: nat)
    requires d > 0 && r < d && x == q * d + r
    ensures x / d == q && x % d == r
  {
    var q', r' := x / d, x % d;
    assert x == q' * d + r' && 0 <= r' < d;
    assert q' <= q by {
      if q' > q {
        MulLt(q, q', d);
        assert false;
      }
    }
    assert q <= q' by {
      if q > q' {
        MulLt(q', q, d);
        assert false;
      }
    }
  }

  // ---- bit reversal --------------------------------------------------------

  /** The p low bits of i in reverse order. */
  function Rev(p: nat, i: nat): (r: nat)
    ensures r < Pow2(p)
  {
    if p == 0 then 0 else (if i % 2 == 1 then Pow2(p - 1) else 0) + Rev(p - 1, i / 2)
  }

  lemma RevHalves(p: nat, b: nat)
    ensures Rev(p + 1, 2 * b) == Rev(p, b) && Rev(p + 1, 2 * b + 1) == Pow2(p) + Rev(p, b)
  {}

  /** Adding one with the carry running from the top bit down. */
  ghost function NextRev(p: nat, j: nat): nat
    requires j < Pow2(p)
  {
    if p == 0 then 0
    else if j >= Pow2(p - 1) then NextRev(p - 1, j - Pow2(p - 1))
    else j + Pow2(p - 1)
  }

  lemma {:induction false} NextRevIsRev(p: nat, i: nat)
    requires i + 1 < Pow2(p)
    ensures NextRev(p, Rev(p, i)) == Rev(p, i + 1)
  {
    if p == 0 {
    } else if i % 2 == 0 {
      assert (i + 1) / 2 == i / 2;
    } else {
      assert (i + 1) / 2 == i / 2 + 1;
      NextRevIsRev(p - 1, i / 2);
    }
  }

  lemma {:induction false} RevTop(p: nat, top: bool, y: nat)
    requires p >= 1 && y < Pow2(p - 1)
    ensures Rev(p, (if top then Pow2(p - 1) else 0) + y) == (if top then 1 else 0) + 2 * Rev(p - 1, y)
  {
    if p == 1 {
      assert y == 0;
    } else {
      var x := (if top then Pow2(p - 1) else 0) + y;
      assert x / 2 == (if top then Pow2(p - 2) else 0) + y / 2 && x % 2 == y % 2;
      RevTop(p - 1, top, y / 2);
    }
  }

  lemma {:induction false} RevInvolution(p: nat, i: nat)
    requires i < Pow2(p)
    ensures Rev(p, Rev(p, i)) == i
  {
    if p == 0 {
    } else {
      RevInvolution(p - 1, i / 2);
      RevTop(p, i % 2 == 1, Rev(p - 1, i / 2));
    }
  }
}
