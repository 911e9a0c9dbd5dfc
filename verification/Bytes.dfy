/** Byte-addressed memory and the little-endian 64-bit words stored in it. */
module Bytes {
  import Arith

  type byte = x: int | 0 <= x < 256

  const WORD_LIMIT: nat := 0x1_0000_0000_0000_0000

  /** The little-endian number in bytes `lo` to `hi` of `m`. */
  function Number(m: seq<byte>, lo: nat, hi: nat): nat
    requires lo <= hi <= |m|
    decreases hi - lo
  {
    if lo == hi then 0 else m[lo] + 256 * Number(m, lo + 1, hi)
  }

  /** `m` with `v` written, least significant byte first, over bytes `lo` to `hi`. */
  function WithNumber(m: seq<byte>, lo: nat, hi: nat, v: nat): (r: seq<byte>)
    requires lo <= hi <= |m|
    ensures |r| == |m|
    ensures forall x :: 0 <= x < |m| && !(lo <= x < hi) ==> r[x] == m[x]
    decreases hi - lo
  {
    if lo == hi then m else WithNumber(m[lo := v % 256], lo + 1, hi, v / 256)
  }

  function Pow256(n: nat): (p: nat)
    ensures p >= 1
  {
    if n == 0 then 1 else 256 * Pow256(n - 1)
  }

  lemma {:induction false} NumberRoundTrip(m: seq<byte>, lo: nat, hi: nat, v: nat)
    requires lo <= hi <= |m| && v < Pow256(hi - lo)
    ensures Number(WithNumber(m, lo, hi, v), lo, hi) == v
    decreases hi - lo
  {
    if lo < hi {
      NumberRoundTrip(m[lo := v % 256], lo + 1, hi, v / 256);
    }
  }

  lemma {:induction false} NumberFrame(m: seq<byte>, m': seq<byte>, lo: nat, hi: nat)
    requires lo <= hi <= |m| && hi <= |m'|
    requires forall x :: lo <= x < hi ==> m'[x] == m[x]
    ensures Number(m', lo, hi) == Number(m, lo, hi)
    decreases hi - lo
  {
    if lo < hi {
      NumberFrame(m, m', lo + 1, hi);
    }
  }

  function Load64(m: seq<byte>, a: nat): nat
    requires a + 8 <= |m|
  {
    Number(m, a, a + 8)
  }

  function Store64(m: seq<byte>, a: nat, v: nat): (r: seq<byte>)
    requires a + 8 <= |m|
    ensures |r| == |m|
    ensures forall x :: 0 <= x < |m| && !(a <= x < a + 8) ==> r[x] == m[x]
  {
    WithNumber(m, a, a + 8, v)
  }

  lemma LoadStored(m: seq<byte>, a: nat, v: nat)
    requires a + 8 <= |m| && v < WORD_LIMIT
    ensures Load64(Store64(m, a, v), a) == v
  {
    assert Pow256(4) == 0x1_0000_0000;
    assert Pow256(8) == WORD_LIMIT;
    NumberRoundTrip(m, a, a + 8, v);
  }

  /** A word is a function of the eight bytes it occupies. */
  lemma LoadFrame(m: seq<byte>, m': seq<byte>, a: nat)
    requires a + 8 <= |m| && a + 8 <= |m'|
    requires forall x :: a <= x < a + 8 ==> m'[x] == m[x]
    ensures Load64(m', a) == Load64(m, a)
  {
    NumberFrame(m, m', a, a + 8);
  }

  /** Digit `k` of a stored word, counted from the least significant one, is the byte at distance `k`. */
  lemma LoadDigit(m: seq<byte>, a: nat, k: nat)
    requires a + 8 <= |m| && k < 8
    ensures Load64(m, a) / Pow256(k) % 256 == m[a + k]
  {
    NumberDigit(m, a, a + 8, k);
  }

  lemma {:induction false} NumberDigit(m: seq<byte>, lo: nat, hi: nat, k: nat)
    requires lo + k < hi <= |m|
    ensures Number(m, lo, hi) / Pow256(k) % 256 == m[lo + k]
    decreases k
  {
    var rest := Number(m, lo + 1, hi);
    if k > 0 {
      NumberDigit(m, lo + 1, hi, k - 1);
      DivideTwice(m[lo], rest, Pow256(k - 1));
    }
  }

  lemma DivideTwice(d: byte, x: nat, p: nat)
    requires p > 0
    ensures (d + 256 * x) / (256 * p) == x / p
  {
    var q, r := x / p, x % p;
    assert x == q * p + r;
    assert d + 256 * x == q * (256 * p) + (256 * r + d);
    Arith.DivUnique(d + 256 * x, 256 * p, q, 256 * r + d);
  }

  lemma {:induction false} NumberZero(m: seq<byte>, lo: nat, hi: nat)
    requires lo <= hi <= |m| && forall x :: lo <= x < hi ==> m[x] == 0
    ensures Number(m, lo, hi) == 0
    decreases hi - lo
  {
    if lo < hi {
      NumberZero(m, lo + 1, hi);
    }
  }
}
