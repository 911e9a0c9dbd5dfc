/** Powers of two, the bitwise exclusive or of addresses, and remainders of aligned numbers. */
module Arith {

  function Pow2(n: nat): (p: nat)
    ensures p >= 1
  {
    if n == 0 then 1 else 2 * Pow2(n - 1)
  }

  lemma {:induction false} Pow2Monotone(a: nat, b: nat)
    requires a <= b
    ensures Pow2(a) <= Pow2(b)
    ensures a < b ==> 2 * Pow2(a) <= Pow2(b)
    decreases b - a
  {
    if a < b {
      Pow2Monotone(a + 1, b);
    }
  }

  lemma Pow2Values()
    ensures Pow2(4) == 16 && Pow2(5) == 32 && Pow2(12) == 4096
    ensures Pow2(19) == 0x8_0000 && Pow2(20) == 0x10_0000
  {
    assert Pow2(8) == 256;
    assert Pow2(12) == 4096;
    assert Pow2(16) == 65536;
    assert Pow2(19) == 0x8_0000;
  }

  /** Bitwise exclusive or of two machine words, bit by bit from the least significant end. */
  function BitXor(a: nat, b: nat): nat
    decreases a + b
  {
    if a == 0 then b
    else if b == 0 then a
    else (a % 2 + b % 2) % 2 + 2 * BitXor(a / 2, b / 2)
  }

  /** The number that differs from `a` in bit `k` only. */
  function Flip(a: nat, k: nat): nat
  {
    if a / Pow2(k) % 2 == 0 then a + Pow2(k)
    else
      QuotientAtLeastOne(a, Pow2(k));
      a - Pow2(k)
  }

  lemma QuotientAtLeastOne(a: nat, p: nat)
    requires p > 0 && a / p % 2 != 0
    ensures a >= p
  {
    if a < p {
      DivUnique(a, p, 0, a);
    }
  }

  lemma HalfOfQuotient(a: nat, p: nat)
    requires p > 0
    ensures a / 2 / p == a / (2 * p)
  {
    var q, r := a / (2 * p), a % (2 * p);
    assert a == 2 * (p * q) + r;
    assert a / 2 == p * q + r / 2;
    assert (p * q + r / 2) / p == q by {
      assert 0 <= r / 2 < p;
      DivUnique(p * q + r / 2, p, q, r / 2);
    }
  }

  lemma {:induction false} MulGap(d: int, a: int, b: int)
    requires d > 0 && a < b
    ensures d * b >= d * a + d
    decreases b - a
  {
    assert d * b == d * (b - 1) + d;
    if a < b - 1 {
      MulGap(d, a, b - 1);
    }
  }

  lemma DivUnique(x: int, d: int, q: int, r: int)
    requires d > 0 && x == d * q + r && 0 <= r < d
    ensures x / d == q && x % d == r
  {
    var q', r' := x / d, x % d;
    assert x == d * q' + r' && 0 <= r' < d;
    if q > q' {
      MulGap(d, q', q);
    } else if q < q' {
      MulGap(d, q, q');
    }
  }

  lemma DivShift(x: int, d: int)
    requires d > 0
    ensures (x + d) / d == x / d + 1 && (x - d) / d == x / d - 1
  {
    var q, r := x / d, x % d;
    assert x == d * q + r;
    assert d * (q + 1) == d * q + d;
    assert d * (q - 1) == d * q - d;
    DivUnique(x + d, d, q + 1, r);
    DivUnique(x - d, d, q - 1, r);
  }

  /** `a ^ (1 << k)` is one addition or one subtraction. */
  lemma {:induction false} XorWithPowerOfTwo(a: nat, k: nat)
    ensures BitXor(a, Pow2(k)) == Flip(a, k)
    decreases k
  {
    hide Flip, BitXor;
    if k == 0 {
      XorWithOne(a);
    } else if a == 0 {
      XorOfZero(k);
    } else {
      XorWithPowerOfTwo(a / 2, k - 1);
      XorStep(a, Pow2(k - 1));
      FlipStep(a, k);
    }
  }

  lemma XorWithOne(a: nat)
    ensures BitXor(a, 1) == Flip(a, 0)
  {
    assert a != 0 ==> BitXor(a / 2, 0) == a / 2;
  }

  lemma XorOfZero(k: nat)
    ensures BitXor(0, Pow2(k)) == Flip(0, k)
  {
    DivUnique(0, Pow2(k), 0, 0);
  }

  /** Flipping a bit above the lowest leaves the lowest alone. */
  lemma FlipStep(a: nat, k: nat)
    requires k > 0
    ensures Flip(a, k) == a % 2 + 2 * Flip(a / 2, k - 1)
  {
    var p := Pow2(k - 1);
    assert Pow2(k) == 2 * p;
    HalfOfQuotient(a, p);
  }

  lemma XorStep(a: nat, p: nat)
    requires a > 0 && p > 0
    ensures BitXor(a, 2 * p) == a % 2 + 2 * BitXor(a / 2, p)
  {
    hide BitXor;
    assert 2 * p % 2 == 0 && 2 * p / 2 == p;
    LowestBit(a, 2 * p);
  }

  lemma LowestBit(a: nat, b: nat)
    requires a > 0 && b > 0
    ensures BitXor(a, b) == (a % 2 + b % 2) % 2 + 2 * BitXor(a / 2, b / 2)
  {
  }

  /** Flipping one bit twice gives the number back, and never gives it back after one flip. */
  lemma FlipInvolution(a: nat, k: nat)
    ensures Flip(a, k) != a
    ensures Flip(Flip(a, k), k) == a
  {
    hide Pow2;
    var p := Pow2(k);
    var q := a / p;
    DivShift(a, p);
    assert (q + 1) % 2 != q % 2 && (q - 1) % 2 != q % 2;
  }
}
