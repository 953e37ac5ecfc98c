/** Bytes, fixed-width integers and their little-endian form. */
module Bytes {

  type Byte = b: int | 0 <= b < 256
  type Int16 = v: int | -32768 <= v <= 32767
  type U32 = v: int | 0 <= v < 0x1_0000_0000
  type U64 = v: int | 0 <= v < 0x1_0000_0000_0000_0000

  /** The n low bytes of v, least significant first. */
  function LE(v: nat, n: nat): (s: seq<Byte>)
    ensures |s| == n
  {
    if n == 0 then [] else [v % 256] + LE(v / 256, n - 1)
  }

  function FromLE(s: seq<Byte>): (v: nat)
    ensures v < Base(|s|)
  {
    if |s| == 0 then 0 else s[0] + 256 * FromLE(s[1..])
  }

  /** 256^n. */
  function Base(n: nat): (r: nat)
    ensures r >= 1
  {
    if n == 0 then 1 else 256 * Base(n - 1)
  }

  lemma WordSizes()
    ensures Base(4) == 0x1_0000_0000 && Base(8) == 0x1_0000_0000_0000_0000
  {}

  lemma {:induction false} LERoundTrip(v: nat, n: nat)
    requires v < Base(n)
    ensures FromLE(LE(v, n)) == v
  {
    if n == 0 {
    } else {
      LERoundTrip(v / 256, n - 1);
      assert LE(v, n)[1..] == LE(v / 256, n - 1);
    }
  }

  lemma LowByte(b: int, v: nat)
    requires 0 <= b < 256
    ensures (b + 256 * v) % 256 == b && (b + 256 * v) / 256 == v
  {}

  lemma {:induction false} FromLERoundTrip(s: seq<Byte>)
    ensures LE(FromLE(s), |s|) == s
  {
    if |s| == 0 {
    } else {
      FromLERoundTrip(s[1..]);
      var first: int, rest := s[0], FromLE(s[1..]);
      LowByte(first, rest);
      assert LE(FromLE(s), |s|) == [first] + LE(rest, |s| - 1);
    }
  }

  // ---- big-endian 16-bit values --------------------------------------------

  /** Two bytes, most significant first; wider values lose their high bits. */
  function U16BE(v: nat): (s: seq<Byte>)
    ensures |s| == 2
  {
    [v / 256 % 256, v % 256]
  }

  function FromU16BE(s: seq<Byte>): (v: nat)
    requires |s| >= 2
    ensures v < 65536
  {
    var high: int, low: int := s[0], s[1];
    high * 256 + low
  }

  /** Two's complement. */
  function I16BE(v: Int16): (s: seq<Byte>)
    ensures |s| == 2
  {
    U16BE(if v < 0 then v + 65536 else v)
  }

  function FromI16BE(s: seq<Byte>): Int16
    requires |s| >= 2
  {
    var u := FromU16BE(s);
    if u >= 32768 then u - 65536 else u
  }

  lemma I16RoundTrip(v: Int16, t: seq<Byte>)
    ensures FromI16BE(I16BE(v) + t) == v
  {}

  lemma U16RoundTrip(v: nat, t: seq<Byte>)
    ensures FromU16BE(U16BE(v) + t) == v % 65536
  {}
}
