/** Unsigned machine words as natural numbers, with the bitwise operators
    defined digit by digit in base two. */
module Bits {

  /** 2 to the power n. */
  function Pow2(n: nat): (r: nat)
    ensures r > 0
  {
    if n == 0 then 1 else 2 * Pow2(n - 1)
  }

  const WORD: nat := 0x1_0000_0000_0000_0000

  predicate Bit(w: nat, i: nat) {
    if i == 0 then w % 2 == 1 else Bit(w / 2, i - 1)
  }

  function Xor(a: nat, b: nat): nat
    decreases a + b
  {
    if a == 0 && b == 0 then 0 else (a + b) % 2 + 2 * Xor(a / 2, b / 2)
  }

  function Or(a: nat, b: nat): nat
    decreases a + b
  {
    if a == 0 && b == 0 then 0
    else (if a % 2 == 1 || b % 2 == 1 then 1 else 0) + 2 * Or(a / 2, b / 2)
  }

  function And(a: nat, b: nat): nat
    decreases a + b
  {
    if a == 0 && b == 0 then 0
    else (if a % 2 == 1 && b % 2 == 1 then 1 else 0) + 2 * And(a / 2, b / 2)
  }

  lemma WordIsPow2()
    ensures Pow2(64) == WORD
  {
    assert Pow2(8) == 256;
    assert Pow2(16) == 0x1_0000;
    assert Pow2(24) == 0x100_0000;
    assert Pow2(32) == 0x1_0000_0000;
    assert Pow2(40) == 0x100_0000_0000;
    assert Pow2(48) == 0x1_0000_0000_0000;
    assert Pow2(56) == 0x100_0000_0000_0000;
  }

  /** The operators stay within the width of their operands. */
  lemma {:induction false} Width(a: nat, b: nat, n: nat)
    requires a < Pow2(n) && b < Pow2(n)
    ensures Xor(a, b) < Pow2(n) && Or(a, b) < Pow2(n)
  {
    if n == 0 || (a == 0 && b == 0) {
    } else {
      Width(a / 2, b / 2, n - 1);
    }
  }

  function Shl(a: nat, n: nat): nat {
    if n == 0 then a else 2 * Shl(a, n - 1)
  }

  lemma {:induction false} ShlIsProduct(a: nat, n: nat)
    ensures Shl(a, n) == a * Pow2(n)
  {
    if n == 0 {
    } else {
      ShlIsProduct(a, n - 1);
      assert a * (2 * Pow2(n - 1)) == 2 * (a * Pow2(n - 1));
    }
  }

  lemma XorUnfold(a: nat, b: nat)
    ensures Xor(a, b) == (a + b) % 2 + 2 * Xor(a / 2, b / 2)
  {
    assert Xor(0, 0) == 0;
  }

  lemma Halves(s: nat, lo: nat, b: nat)
    ensures (2 * s + lo) / 2 == s + lo / 2 && (2 * s + lo + b) % 2 == (lo + b) % 2
  {}

  lemma XorHalves(s: nat, lo: nat, b: nat)
    requires Xor(s + lo / 2, b / 2) == s + Xor(lo / 2, b / 2)
    ensures Xor(2 * s + lo, b) == 2 * s + Xor(lo, b)
  {
    XorUnfold(2 * s + lo, b);
    XorUnfold(lo, b);
    Halves(s, lo, b);
  }

  lemma {:induction false} XorBelowShl(hi: nat, lo: nat, b: nat, n: nat)
    requires lo < Pow2(n) && b < Pow2(n)
    ensures Xor(Shl(hi, n) + lo, b) == Shl(hi, n) + Xor(lo, b)
  {
    if n == 0 {
      XorZero(hi);
    } else {
      XorBelowShl(hi, lo / 2, b / 2, n - 1);
      XorHalves(Shl(hi, n - 1), lo, b);
    }
  }

  /** An exclusive-or with a value that fits in the low n bits leaves the bits above them alone. */
  lemma XorLowLimb(hi: nat, lo: nat, b: nat, n: nat)
    requires lo < Pow2(n) && b < Pow2(n)
    ensures Xor(hi * Pow2(n) + lo, b) == hi * Pow2(n) + Xor(lo, b)
  {
    XorBelowShl(hi, lo, b, n);
    ShlIsProduct(hi, n);
  }

  lemma {:induction false} XorZero(a: nat)
    ensures Xor(a, 0) == a
  {
    if a == 0 {
    } else {
      XorZero(a / 2);
    }
  }

  lemma {:induction false} XorBit(a: nat, b: nat, i: nat)
    ensures Bit(Xor(a, b), i) <==> Bit(a, i) != Bit(b, i)
    decreases i
  {
    if a == 0 && b == 0 {
      ZeroBit(i);
    } else if i > 0 {
      XorBit(a / 2, b / 2, i - 1);
    }
  }

  lemma {:induction false} OrBit(a: nat, b: nat, i: nat)
    ensures Bit(Or(a, b), i) <==> Bit(a, i) || Bit(b, i)
    decreases i
  {
    if a == 0 && b == 0 {
      ZeroBit(i);
    } else if i > 0 {
      OrBit(a / 2, b / 2, i - 1);
    }
  }

  lemma {:induction false} ZeroBit(i: nat)
    ensures !Bit(0, i)
  {
    if i == 0 {
    } else {
      ZeroBit(i - 1);
    }
  }

  /** A power of two has exactly one bit. */
  lemma {:induction false} SingleBit(i: nat, j: nat)
    ensures Bit(Pow2(i), j) <==> i == j
  {
    if i == 0 {
      if j > 0 { ZeroBit(j - 1); }
    } else if j > 0 {
      SingleBit(i - 1, j - 1);
    }
  }

  /** Masking with a single bit tests that bit. */
  lemma {:induction false} MaskTests(w: nat, i: nat)
    ensures And(w, Pow2(i)) != 0 <==> Bit(w, i)
    decreases i
  {
    if i == 0 {
      AndZero(w / 2);
    } else {
      MaskTests(w / 2, i - 1);
    }
  }

  lemma {:induction false} AndZero(a: nat)
    ensures And(a, 0) == 0
  {
    if a == 0 {
    } else {
      AndZero(a / 2);
    }
  }

  /** A non-zero multiple is at least one step away from zero. */
  lemma BigMultiple(d: int, m: int)
    requires d != 0 && m > 0
    ensures d * m >= m || d * m <= -m
  {
    if d > 0 {
      assert d * m >= 1 * m;
    } else {
      assert d * m <= -1 * m;
    }
  }

  // ----- Signed words -----

  /** Two's complement: the signed reading of a 64-bit word. */
  function Signed(w: nat): int {
    if w < WORD / 2 then w else w - WORD
  }

  /** Signed 64-bit arithmetic keeps the result up to multiples of the word size. */
  function Wrapped(i: int): int { Signed(i % WORD) }

  lemma WrappedIff(d: int)
    ensures Wrapped(d) == d <==> -(WORD / 2) <= d < WORD / 2
  {}
}
