/** The double hash of the Bloom filter: FNV-1a over 128 bits computed in two
    64-bit limbs, against the single-number definition of the FNV family. */
module Fnv {
  import opened Bits

  type Byte = b: nat | b < 256

  const PRIME: nat := 0x100_0000 * WORD + 315          // 2^88 + 315
  const OFFSET_HI: nat := 0x6c62272e07bb0142
  const OFFSET_LO: nat := 0x62b821756295c58d

  /** One FNV-1a round on a single 128-bit number. */
  function Round(h: nat, b: Byte): nat {
    (Xor(h, b) * PRIME) % (WORD * WORD)
  }

  /** FNV-1a over 128 bits (section 2 of Internet-Draft draft-eastlake-fnv). */
  function Fnv1a(data: seq<Byte>): nat {
    if data == [] then OFFSET_HI * WORD + OFFSET_LO
    else Round(Fnv1a(data[..|data| - 1]), data[|data| - 1])
  }

  /** The low 64-bit word shifted left by 24, bits above the word lost. */
  function Shl24(w: nat): nat {
    (w * 0x100_0000) % WORD
  }

  /** Multiplying a two-limb number by a two-limb constant modulo the square of the limb base m,
      given the carries and remainders of the partial products: the top limb needs only the cross
      terms and the carry, themselves modulo m. */
  lemma LimbMultiply(h: nat, x: nat, c: nat, k: nat, m: nat,
                     q1: nat, r1: nat, q2: nat, r2: nat, q3: nat, r3: nat)
    requires r2 < m && r3 < m
    requires x * c == q1 * m + r1
    requires x * k == q2 * m + r2
    requires h * k + r1 + q2 == q3 * m + r3
    ensures m * m > 0 && ((h * m + x) * (c * m + k)) % (m * m) == r3 * m + r2
  {
    LimbExpansion(h, x, c, k, m, q1, r1, q2, r2, q3, r3);
    TwoDigits(r3, r2, m);
    ModUnique(h * c + q1 + q3, r3 * m + r2, m * m);
  }

  lemma LimbExpansion(h: nat, x: nat, c: nat, k: nat, m: nat,
                      q1: nat, r1: nat, q2: nat, r2: nat, q3: nat, r3: nat)
    requires x * c == q1 * m + r1
    requires x * k == q2 * m + r2
    requires h * k + r1 + q2 == q3 * m + r3
    ensures (h * m + x) * (c * m + k) == (h * c + q1 + q3) * (m * m) + (r3 * m + r2)
  {
    calc {
      (h * m + x) * (c * m + k);
      h * c * (m * m) + (h * k) * m + (x * c) * m + x * k;
      h * c * (m * m) + (h * k) * m + (q1 * m + r1) * m + (q2 * m + r2);
      (h * c + q1) * (m * m) + (h * k + r1 + q2) * m + r2;
      (h * c + q1) * (m * m) + (q3 * m + r3) * m + r2;
      (h * c + q1 + q3) * (m * m) + (r3 * m + r2);
    }
  }

  lemma TwoDigits(hi: nat, lo: nat, m: nat)
    requires hi < m && lo < m
    ensures 0 < m * m && hi * m + lo < m * m
  {
    assert hi * m <= (m - 1) * m;
  }

  lemma ModUnique(q: nat, r: nat, m: nat)
    requires m > 0 && r < m
    ensures (q * m + r) % m == r
  {
    var d := (q * m + r) / m - q;
    assert d * m == r - (q * m + r) % m;
    if d != 0 {
      BigMultiple(d, m);
    }
  }

  /** The exclusive-or of a round touches the low limb only. */
  lemma LimbXor(h1: nat, h2: nat, b: Byte)
    requires h2 < WORD
    ensures Xor(h2, b) < WORD && Xor(h1 * WORD + h2, b) == h1 * WORD + Xor(h2, b)
  {
    WordIsPow2();
    Width(h2, b, 64);
    XorLowLimb(h1, h2, b, 64);
  }

  /** The multiplication of a round, limb by limb. */
  lemma LimbPrime(h1: nat, x: nat)
    ensures ((h1 * WORD + x) * PRIME) % (WORD * WORD)
         == ((h1 * 315 + Shl24(x) + (x * 315) / WORD) % WORD) * WORD + (x * 315) % WORD
  {
    var u := h1 * 315 + Shl24(x) + (x * 315) / WORD;
    LimbMultiply(h1, x, 0x100_0000, 315, WORD, (x * 0x100_0000) / WORD, Shl24(x),
                 (x * 315) / WORD, (x * 315) % WORD, u / WORD, u % WORD);
  }

  /** The two limbs together are the 128-bit FNV-1a hash of the data. */
  method DoubleHash(data: seq<Byte>) returns (h1: nat, h2: nat)
    ensures h1 < WORD && h2 < WORD
    ensures h1 * WORD + h2 == Fnv1a(data)
  {
    h1, h2 := OFFSET_HI, OFFSET_LO;
    for i := 0 to |data|
      invariant h1 < WORD && h2 < WORD
      invariant h1 * WORD + h2 == Fnv1a(data[..i])
    {
      LimbXor(h1, h2, data[i]);
      LimbPrime(h1, Xor(h2, data[i]));
      assert data[..i + 1][..i] == data[..i];
      h2 := Xor(h2, data[i]);
      var hi, lo := (h2 * 315) / WORD, (h2 * 315) % WORD;   // bits.Mul64
      h1 := (h1 * 315 + Shl24(h2) + hi) % WORD;
      h2 := lo;
    }
    assert data[..|data|] == data;
  }
}
