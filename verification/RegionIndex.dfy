/**
 * The index of a region within its run, computed without a division: powers of two are
 * shifted out, and small odd divisors are replaced by a multiplication in 32-bit arithmetic.
 */
module RegionIndex {
  import opened Basics
  import opened SizeBits
  import Align

  const TWO_21: nat := 0x20_0000
  const LAST_INV: nat := 31

  /** ffs(x) - 1: how often two divides `x`. */
  function TrailingZeros(x: nat): nat
    requires x > 0
  {
    if x % 2 == 1 then 0 else 1 + TrailingZeros(x / 2)
  }

  lemma {:induction false} FactorOut(x: nat)
    requires x > 0
    ensures x == Prefix(x, TrailingZeros(x)) * Pow2(TrailingZeros(x)) && Prefix(x, TrailingZeros(x)) % 2 == 1
    ensures Prefix(x, TrailingZeros(x)) >= 1
  {
    if x % 2 == 0 {
      FactorOut(x / 2);
      var k, p := TrailingZeros(x / 2), Pow2(TrailingZeros(x / 2));
      PrefixOfHalf(x, k);
      var h := Prefix(x / 2, k);
      assert x == 2 * (h * p) == h * (2 * p);
    }
  }

  /** Shifting `x` by one more place is shifting its half. */
  lemma {:induction false} PrefixOfHalf(x: nat, k: nat)
    ensures Prefix(x, k + 1) == Prefix(x / 2, k)
  {
    if k > 0 {
      PrefixOfHalf(x, k - 1);
    }
  }

  /** Shifting a multiple of a power of two. */
  lemma {:induction false} PrefixOfScaled(m: nat, k: nat)
    ensures Prefix(m * Pow2(k), k) == m
  {
    if k > 0 {
      var p := Pow2(k - 1);
      assert m * (2 * p) == 2 * (m * p);
      PrefixOfHalf(m * Pow2(k), k - 1);
      PrefixOfScaled(m, k - 1);
    }
  }

  /** SIZE_INV. */
  function Inverse(d: nat): nat
    requires d > 0
  {
    TWO_21 / d + 1
  }

  /** The 32-bit product, shifted. */
  function MulShift(diff: nat, d: nat): nat
    requires d > 0
  {
    (diff * Inverse(d)) % TWO_32 / TWO_21
  }

  /** For the divisors in the table the product is exact up to the largest region index. */
  lemma MulShiftIsDivision(k: nat, d: nat)
    requires k < RUN_MAXREGS && 3 <= d <= LAST_INV
    ensures MulShift(k * d, d) == k
  {
    var q, r := TWO_21 / d, TWO_21 % d;
    Product(k, d, q, r);
    Align.MulMono(0, k, d - r);
    Align.MulMono(k, RUN_MAXREGS - 1, d - r);
    Shifted(k, k * (d - r));
  }

  lemma Product(k: nat, d: nat, q: nat, r: nat)
    requires TWO_21 == q * d + r
    ensures (k * d) * (q + 1) == k * TWO_21 + k * (d - r)
  {
    var x := d * (q + 1);
    assert x == TWO_21 + (d - r);
    assert (k * d) * (q + 1) == k * x;
  }

  lemma Shifted(k: nat, extra: nat)
    requires k < RUN_MAXREGS && extra < TWO_21
    ensures (k * TWO_21 + extra) % TWO_32 / TWO_21 == k
  {
  }

  /** One region more and the 32-bit product overflows. */
  lemma MulShiftOverflows(d: nat)
    requires 3 <= d <= LAST_INV
    ensures MulShift(RUN_MAXREGS * d, d) == 0
  {
    Product(RUN_MAXREGS, d, TWO_21 / d, TWO_21 % d);
  }

  /** arena_run_regind: the offset of an address from region zero gives back the region's index. */
  method RegInd(diff0: nat, interval0: nat, ghost k: nat) returns (regind: nat)
    requires interval0 > 0 && k < RUN_MAXREGS && diff0 == k * interval0 < TWO_32
    ensures regind == k
  {
    var shift := TrailingZeros(interval0);
    var diff, interval := Prefix(diff0, shift), Prefix(interval0, shift);
    Rescaled(k, interval0);
    if interval == 1 {
      regind := diff;
    } else if interval <= LAST_INV {
      MulShiftIsDivision(k, interval);
      regind := MulShift(diff, interval);
    } else {
      Align.MultipleIs(k, interval);
      regind := diff / interval;
    }
  }

  /** Shifting out the powers of two leaves the quotient as it is. */
  lemma Rescaled(k: nat, interval: nat)
    requires interval > 0
    ensures var shift := TrailingZeros(interval);
      && Prefix(k * interval, shift) == k * Prefix(interval, shift)
      && Prefix(interval, shift) % 2 == 1
  {
    var shift := TrailingZeros(interval);
    var odd := Prefix(interval, shift);
    FactorOut(interval);
    assert k * (odd * Pow2(shift)) == (k * odd) * Pow2(shift);
    PrefixOfScaled(k * odd, shift);
  }
}
