/** The division of pubkeys into bins, which follows their order. */
module PubkeyBins {
  import opened Common

  ghost predicate Monotone(bin: Pubkey -> nat) {
    forall a, b :: a <= b ==> bin(a) <= bin(b)
  }

  /** A division of the keys into `bins` consecutive ranges. */
  ghost predicate IsBinner(bin: Pubkey -> nat, bins: nat) {
    Monotone(bin) && forall k: Pubkey :: bin(k) < bins
  }

  const ABOVE_FIRST_THREE_BYTES: nat := 0x1_0000000000_0000000000000000_0000000000000000_0000000000000000

  /** The first 24 bits of the key, of which the lowest 24 - bits are shifted away. */
  function PubkeyBin(bits: nat): Pubkey -> nat
    requires bits <= 24
  {
    PowPositive(2, 24 - bits);
    (k: Pubkey) => k / ABOVE_FIRST_THREE_BYTES / Pow(2, 24 - bits)
  }

  lemma {:induction false} PowPositive(b: nat, e: nat)
    requires b >= 1
    ensures Pow(b, e) >= 1
  {
    if e > 0 { PowPositive(b, e - 1); }
  }

  lemma {:induction false} PowAdd(b: nat, d: nat, e: nat)
    ensures Pow(b, d + e) == Pow(b, d) * Pow(b, e)
  {
    if d > 0 {
      PowAdd(b, d - 1, e);
      Associative(b, Pow(b, d - 1), Pow(b, e));
    }
  }

  lemma {:induction false} Associative(x: nat, y: nat, z: nat)
    ensures x * (y * z) == (x * y) * z
  {
  }

  lemma {:induction false} DivMonotone(a: nat, b: nat, d: nat)
    requires a <= b && d > 0
    ensures a / d <= b / d
  {
    var x, y := a / d, b / d;
    assert x * d <= a <= b < (y + 1) * d;
    if y + 1 <= x {
      MulMonotone(y + 1, x, d);
      assert false;
    }
  }

  lemma {:induction false} DivBound(a: nat, d: nat, m: nat)
    requires d > 0 && a < m * d
    ensures a / d < m
  {
    if m <= a / d {
      MulMonotone(m, a / d, d);
      assert false;
    }
  }

  /** The bin calculator divides the keys into 2^bits consecutive ranges. */
  lemma {:induction false} PubkeyBinIsBinner(bits: nat)
    requires bits <= 24
    ensures IsBinner(PubkeyBin(bits), Pow(2, bits))
  {
    forall a: Pubkey, b: Pubkey | a <= b ensures PubkeyBin(bits)(a) <= PubkeyBin(bits)(b) {
      BinsInOrder(bits, a, b);
    }
    forall k: Pubkey ensures PubkeyBin(bits)(k) < Pow(2, bits) {
      BinInRange(bits, k);
    }
  }

  lemma {:induction false} BinsInOrder(bits: nat, a: Pubkey, b: Pubkey)
    requires bits <= 24 && a <= b
    ensures PubkeyBin(bits)(a) <= PubkeyBin(bits)(b)
  {
    PowPositive(2, 24 - bits);
    DivMonotone(a, b, ABOVE_FIRST_THREE_BYTES);
    DivMonotone(a / ABOVE_FIRST_THREE_BYTES, b / ABOVE_FIRST_THREE_BYTES, Pow(2, 24 - bits));
  }

  lemma {:induction false} BinInRange(bits: nat, k: Pubkey)
    requires bits <= 24
    ensures PubkeyBin(bits)(k) < Pow(2, bits)
  {
    FirstThreeBytes(k);
    ShiftedBelow(bits, k / ABOVE_FIRST_THREE_BYTES);
  }

  lemma {:induction false} FirstThreeBytes(k: Pubkey)
    ensures k / ABOVE_FIRST_THREE_BYTES < 0x1000000
  {
  }

  lemma {:induction false} TwoTo24()
    ensures Pow(2, 24) == 0x1000000
  {
    assert Pow(2, 1) == 2 && Pow(2, 2) == 4 && Pow(2, 3) == 8;
    PowAdd(2, 3, 3);
    PowAdd(2, 6, 6);
    PowAdd(2, 12, 12);
  }

  lemma {:induction false} DivUnique(k: nat, d: nat, r: nat)
    requires r * d <= k < (r + 1) * d
    ensures d > 0 && k / d == r
  {
    var q := k / d;
    assert q * d <= k < (q + 1) * d;
    MulCancel(q, r + 1, d);
    MulCancel(r, q + 1, d);
  }

  lemma {:induction false} DivTwice(k: nat, d: nat, e: nat)
    requires d > 0 && e > 0
    ensures d * e > 0 && k / d / e == k / (d * e)
  {
    var q := k / d;
    var r := q / e;
    Quotients(k, d, e, q, r);
    DivUnique(k, d * e, r);
  }

  lemma {:induction false} Quotients(k: nat, d: nat, e: nat, q: nat, r: nat)
    requires q * d <= k < (q + 1) * d && r * e <= q < (r + 1) * e
    ensures r * (d * e) <= k < (r + 1) * (d * e)
  {
    MulMonotone(r * e, q, d);
    MulMonotone(q + 1, (r + 1) * e, d);
    Swap(r, d, e);
    Swap(r + 1, d, e);
  }

  lemma {:induction false} Swap(r: nat, d: nat, e: nat)
    ensures (r * e) * d == r * (d * e)
  {
  }

  /** Twice the exponent squares the power. */
  lemma {:induction false} Squared(e: nat, value: nat)
    requires Pow(2, e) == value
    ensures Pow(2, e + e) == value * value
  {
    PowAdd(2, e, e);
  }

  lemma {:induction false} Times(d: nat, e: nat, v: nat, w: nat)
    requires Pow(2, d) == v && Pow(2, e) == w
    ensures Pow(2, d + e) == v * w
  {
    PowAdd(2, d, e);
  }

  /** The exponent is given in bytes of `e` bits. */
  lemma {:induction false} TwoTo232(e: nat)
    requires e == 8
    ensures Pow(2, 29 * e) == ABOVE_FIRST_THREE_BYTES
  {
    assert Pow(2, 8) == 256;
    Squared(e, 256);
    Squared(2 * e, 0x1_0000);
    Squared(4 * e, 0x1_0000_0000);
    Squared(8 * e, 0x1_0000_0000_0000_0000);
    Times(16 * e, 8 * e, 0x1_0000000000000000_0000000000000000, 0x1_0000000000000000);
    Times(24 * e, 4 * e, 0x1_0000000000000000_0000000000000000_0000000000000000, 0x1_0000_0000);
    Times(28 * e, e, 0x1_00000000_0000000000000000_0000000000000000_0000000000000000, 256);
  }

  /** The bin of a key is its first `bits` bits. */
  lemma {:induction false} BinIsLeadingBits(bits: nat, k: Pubkey)
    requires bits <= 24
    ensures Pow(2, 256 - bits) > 0 && PubkeyBin(bits)(k) == k / Pow(2, 256 - bits)
  {
    PowPositive(2, 24 - bits);
    TwoTo232(8);
    PowAdd(2, 232, 24 - bits);
    DivTwice(k, ABOVE_FIRST_THREE_BYTES, Pow(2, 24 - bits));
  }

  lemma {:induction false} ShiftedBelow(bits: nat, q: nat)
    requires bits <= 24 && q < 0x1000000
    ensures Pow(2, 24 - bits) > 0 && q / Pow(2, 24 - bits) < Pow(2, bits)
  {
    PowPositive(2, 24 - bits);
    PowAdd(2, bits, 24 - bits);
    TwoTo24();
    DivBound(q, Pow(2, 24 - bits), Pow(2, bits));
  }
}
