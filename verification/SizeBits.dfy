/**
 * Size arithmetic behind the tree bins of the boundary-tag heap: right shifts,
 * the left-shifted "sizebits" word whose top bit steers every trie descent, and
 * the map from a chunk size to its tree bin.
 */
module SizeBits {
  import opened Basics

  const NTREEBINS: nat := 32
  const SIZE_T_BITS: nat := 64
  const TWO_40: nat := 0x100_0000_0000
  const TWO_63: nat := 0x8000_0000_0000_0000

  /** `s >> k`. */
  function Prefix(s: nat, k: nat): nat {
    if k == 0 then s else Prefix(s, k - 1) / 2
  }

  /** `(s >> k) & 1`. */
  function Bit(s: nat, k: nat): nat {
    Prefix(s, k) % 2
  }

  function Pow2(k: nat): (r: nat)
    ensures r > 0
  {
    if k == 0 then 1 else 2 * Pow2(k - 1)
  }

  /** Unsigned 64-bit subtraction. */
  function Sub64(a: nat, b: nat): nat {
    (a as int - b as int) % TWO_64
  }

  /** `x << 1` in 64 bits. */
  function ShiftLeft1(x: nat): nat {
    (2 * x) % TWO_64
  }

  /** `s << n` in 64 bits, one shift at a time. */
  function ShiftLeft(s: nat, n: nat): nat {
    if n == 0 then s % TWO_64 else ShiftLeft1(ShiftLeft(s, n - 1))
  }

  /** `x >> 63`, the bit that picks a child. */
  function TopBit(x: nat): nat {
    x / TWO_63
  }

  // --------------------------------------------------------------------------
  // Prefixes: order and extension
  // --------------------------------------------------------------------------

  lemma {:induction false} PrefixMonotone(x: nat, y: nat, k: nat)
    requires x <= y
    ensures Prefix(x, k) <= Prefix(y, k)
  {
    if k > 0 {
      PrefixMonotone(x, y, k - 1);
    }
  }

  /** A smaller prefix at any level means a smaller size. */
  lemma PrefixReflectsOrder(x: nat, y: nat, k: nat)
    requires Prefix(x, k) < Prefix(y, k)
    ensures x < y
  {
    if y <= x {
      PrefixMonotone(y, x, k);
    }
  }

  /** Equal prefixes stay equal at every higher level. */
  lemma {:induction false} PrefixWiden(x: nat, y: nat, k: nat, m: nat)
    requires k <= m && Prefix(x, k) == Prefix(y, k)
    ensures Prefix(x, m) == Prefix(y, m)
    decreases m
  {
    if k < m {
      PrefixWiden(x, y, k, m - 1);
    }
  }

  /** A strict order of prefixes stays at least weak at every higher level. */
  lemma {:induction false} PrefixWidenOrder(x: nat, y: nat, k: nat, m: nat)
    requires k <= m && Prefix(x, k) <= Prefix(y, k)
    ensures Prefix(x, m) <= Prefix(y, m)
    decreases m
  {
    if k < m {
      PrefixWidenOrder(x, y, k, m - 1);
    }
  }

  /** Sizes in the lower half of a range are below sizes in its upper half. */
  lemma HalvesOrdered(l: nat, r: nat, k: nat, x: nat, y: nat)
    requires Prefix(l, k + 1) == Prefix(r, k + 1) && Bit(l, k) == 0 && Bit(r, k) == 1
    requires Prefix(x, k) == Prefix(l, k) && Prefix(y, k) == Prefix(r, k)
    ensures x < y
  {
    PrefixReflectsOrder(x, y, k);
  }

  lemma {:induction false} PrefixCompose(s: nat, j: nat, k: nat)
    ensures Prefix(Prefix(s, j), k) == Prefix(s, j + k)
  {
    if k > 0 {
      PrefixCompose(s, j, k - 1);
    }
  }

  lemma {:induction false} PrefixBound(s: nat, k: nat, c: nat)
    ensures Prefix(s, k) < c <==> s < c * Pow2(k)
  {
    if k > 0 {
      PrefixBound(s, k - 1, 2 * c);
      assert 2 * c * Pow2(k - 1) == c * Pow2(k);
      assert Prefix(s, k) < c <==> Prefix(s, k - 1) < 2 * c;
    }
  }

  lemma {:induction false} PrefixOfSmall(s: nat)
    requires s < TWO_64
    ensures Prefix(s, SIZE_T_BITS) == 0
  {
    Pow2Table();
    PrefixBound(s, 64, 1);
  }

  lemma Pow2Table()
    ensures Pow2(8) == 0x100
    ensures Pow2(16) == 0x1_0000
    ensures Pow2(22) == 0x40_0000
    ensures Pow2(32) == TWO_32
    ensures Pow2(40) == TWO_40
    ensures Pow2(63) == TWO_63
    ensures Pow2(64) == TWO_64
  {
    assert Pow2(8) == 0x100;
    Pow2Add(8, 8);
    Pow2Add(16, 16);
    Pow2Add(8, 32);
    Pow2Add(32, 32);
    Pow2Add(16, 8);
    assert Pow2(24) == 0x100_0000;
    assert Pow2(23) * 2 == Pow2(24);
    assert Pow2(64) == 2 * Pow2(63);
  }

  lemma {:induction false} Pow2Add(j: nat, k: nat)
    ensures Pow2(j + k) == Pow2(j) * Pow2(k)
  {
    if k > 0 {
      Pow2Add(j, k - 1);
      assert Pow2(j) * Pow2(k) == 2 * (Pow2(j) * Pow2(k - 1));
    }
  }

  // --------------------------------------------------------------------------
  // The shifted word and the bit it exposes
  // --------------------------------------------------------------------------

  /** The low `k` bits of a size. */
  function Low(s: nat, k: nat): int {
    s - Prefix(s, k) * Pow2(k)
  }

  lemma LowStep(s: nat, k: nat)
    ensures Low(s, k + 1) == Bit(s, k) * Pow2(k) + Low(s, k)
    ensures 0 <= Low(s, k) < Pow2(k)
  {
    var p, b, h := Pow2(k), Bit(s, k), Prefix(s, k + 1);
    assert Prefix(s, k) == 2 * h + b;
    assert (2 * h + b) * p == h * (2 * p) + b * p;
    PrefixBound(s, k, Prefix(s, k));
    PrefixBound(s, k, Prefix(s, k) + 1);
    assert (Prefix(s, k) + 1) * p == Prefix(s, k) * p + p;
  }

  /**
   * After `n` left shifts the top bit of the word is bit `63 - n` of the size:
   * the descent that shifts once per level inspects exactly the next size bit.
   */
  lemma ShiftExposesBit(s: nat, n: nat)
    requires n < SIZE_T_BITS && s < TWO_64
    ensures TopBit(ShiftLeft(s, n)) == Bit(s, 63 - n)
  {
    ShiftLeftClosed(s, n);
    LowStep(s, 63 - n);
    Pow2Add(63 - n, n);
    Pow2Table();
    TopOfScaled(Bit(s, 63 - n), Pow2(63 - n), Low(s, 63 - n), Pow2(n), ShiftLeft(s, n));
  }

  /** The top bit of `(b * p + low) * m`, where `p * m` is the top bit's weight. */
  lemma TopOfScaled(b: nat, p: nat, low: nat, m: nat, x: nat)
    requires low < p && p * m == TWO_63 && x == (b * p + low) * m
    ensures TopBit(x) == b
  {
    Distribute(b, p, low, m);
    assert m > 0;
    MulLess(low, p, m);
    TopOfSum(b, low * m, x);
  }

  lemma TopOfSum(b: nat, low: nat, x: nat)
    requires low < TWO_63 && x == b * TWO_63 + low
    ensures TopBit(x) == b
  {
  }

  /** Scaling `b * 2^k + low` by `2^n`, with `2^k * 2^n` named. */
  lemma LowScaled(b: nat, low: nat, k: nat, n: nat)
    requires low < Pow2(k)
    ensures (b * Pow2(k) + low) * Pow2(n) == b * Pow2(k + n) + low * Pow2(n)
    ensures low * Pow2(n) < Pow2(k + n)
    ensures k + n == 64 ==> Pow2(k + n) == TWO_64
  {
    Pow2Add(k, n);
    Distribute(b, Pow2(k), low, Pow2(n));
    MulLess(low, Pow2(k), Pow2(n));
    Pow2Table();
  }

  lemma Distribute(b: int, p: int, low: int, m: int)
    ensures (b * p + low) * m == b * (p * m) + low * m
  {
    assert (b * p) * m == b * (p * m);
  }

  lemma MulLess(x: int, y: int, m: int)
    requires x < y && m > 0
    ensures x * m < y * m
  {
  }

  /** One doubling modulo 2^64 drops the leading bit `b`. */
  lemma DropLead(x: nat, l: int, m: int, b: nat, r: nat)
    requires x == l * m && l * (2 * m) == b * TWO_64 + r && r < TWO_64
    ensures ShiftLeft1(x) == r
  {
    assert 2 * x == l * (2 * m);
  }

  lemma {:induction false} ShiftLeftClosed(s: nat, n: nat)
    requires n <= SIZE_T_BITS && s < TWO_64
    ensures ShiftLeft(s, n) == Low(s, 64 - n) * Pow2(n)
  {
    if n == 0 {
      LowAll(s);
    } else {
      ShiftLeftClosed(s, n - 1);
      ShiftStep(s, 64 - n, n, ShiftLeft(s, n - 1));
    }
  }

  lemma LowAll(s: nat)
    requires s < TWO_64
    ensures Low(s, SIZE_T_BITS) == s
  {
    PrefixOfSmall(s);
  }

  lemma ShiftStep(s: nat, k: nat, n: nat, x: nat)
    requires n > 0 && k + n == SIZE_T_BITS && x == Low(s, k + 1) * Pow2(n - 1)
    ensures ShiftLeft1(x) == Low(s, k) * Pow2(n)
  {
    LowStep(s, k);
    var b, low, m := Bit(s, k), Low(s, k), Pow2(n - 1);
    LowScaled(b, low, k, n);
    DropLead(x, Low(s, k + 1), m, b, low * (2 * m));
  }

  // --------------------------------------------------------------------------
  // Tree bin index
  // --------------------------------------------------------------------------

  /** Position of the highest set bit, `31 - clz(x)`. */
  function HighBit(x: nat): nat
    requires x > 0
  {
    if x < 2 then 0 else 1 + HighBit(x / 2)
  }

  lemma {:induction false} HighBitPrefix(x: nat)
    requires x > 0
    ensures Prefix(x, HighBit(x)) == 1
  {
    if x >= 2 {
      HighBitPrefix(x / 2);
      PrefixCompose(x, 1, HighBit(x / 2));
      assert Prefix(x, 1) == x / 2;
    }
  }

  lemma {:induction false} HighBitBound(x: nat, k: nat)
    requires 0 < x < Pow2(k)
    ensures HighBit(x) < k
  {
    if x >= 2 {
      HighBitBound(x / 2, k - 1);
    }
  }

  /** compute_tree_index: the shifted size is narrowed to 32 bits first. */
  function TreeIndex(s: nat): nat {
    var x := Prefix(s, 8) % TWO_32;
    if x == 0 then 0
    else if x > 0xFFFF then NTREEBINS - 1
    else
      var k := HighBit(x);
      2 * k + Bit(s, k + 7)
  }

  /** minsize_for_tree_index. */
  function MinSize(i: nat): nat {
    Pow2(i / 2 + 8) + (i % 2) * Pow2(i / 2 + 7)
  }

  /** leftshift_for_tree_index. */
  function LeftShift(i: nat): nat
    requires i < NTREEBINS
  {
    if i == NTREEBINS - 1 then 0 else 63 - (i / 2 + 6)
  }

  /** Number of low size bits that distinguish the sizes of bin `i`. */
  function TopLevel(i: nat): nat
    requires i < NTREEBINS
  {
    64 - LeftShift(i)
  }

  /** The sizes bin `i` is meant to hold, as the tree checks state it. */
  predicate InBin(s: nat, i: nat) {
    MinSize(i) <= s && (i == NTREEBINS - 1 || s < MinSize(i + 1))
  }

  /** The same range as a condition on the size's leading bits. */
  predicate LeadingBits(s: nat, i: nat) {
    if i == NTREEBINS - 1 then Prefix(s, 22) >= 3 else Prefix(s, i / 2 + 7) == 2 + i % 2
  }

  lemma MinSizeAsPrefix(s: nat, i: nat)
    ensures MinSize(i) <= s <==> Prefix(s, i / 2 + 7) >= 2 + i % 2
  {
    PrefixBound(s, i / 2 + 7, 2 + i % 2);
    assert MinSize(i) == (2 + i % 2) * Pow2(i / 2 + 7) by {
      assert Pow2(i / 2 + 8) == 2 * Pow2(i / 2 + 7);
      assert (2 + i % 2) * Pow2(i / 2 + 7) == 2 * Pow2(i / 2 + 7) + (i % 2) * Pow2(i / 2 + 7);
    }
  }

  lemma InBinIsLeadingBits(s: nat, i: nat)
    requires i < NTREEBINS
    ensures InBin(s, i) <==> LeadingBits(s, i)
  {
    MinSizeAsPrefix(s, i);
    if i < NTREEBINS - 1 {
      MinSizeAsPrefix(s, i + 1);
      if i % 2 == 1 {
        assert (i + 1) / 2 + 7 == i / 2 + 8;
        assert Prefix(s, i / 2 + 8) == Prefix(s, i / 2 + 7) / 2;
      } else {
        assert (i + 1) / 2 == i / 2;
      }
    } else {
      assert i / 2 + 7 == 22 && i % 2 == 1;
    }
  }

  /** Bins are disjoint and ordered by size. */
  lemma BinsOrdered(s: nat, i: nat, t: nat, j: nat)
    requires i < j < NTREEBINS && InBin(s, i) && InBin(t, j)
    ensures s < t
  {
    MinSizeMonotone(i + 1, j);
  }

  lemma {:induction false} MinSizeMonotone(i: nat, j: nat)
    requires i <= j
    ensures MinSize(i) <= MinSize(j)
    decreases j
  {
    if i < j {
      MinSizeMonotone(i, j - 1);
      if j % 2 == 1 {
        assert (j - 1) / 2 == j / 2;
      } else {
        assert (j - 1) / 2 + 8 == j / 2 + 7;
      }
    }
  }

  lemma BinUnique(s: nat, i: nat, j: nat)
    requires i < NTREEBINS && j < NTREEBINS && InBin(s, i) && InBin(s, j)
    ensures i == j
  {
    if i < j {
      BinsOrdered(s, i, s, j);
    } else if j < i {
      BinsOrdered(s, j, s, i);
    }
  }

  /**
   * The index is right exactly when narrowing to 32 bits does no harm: either the
   * size is below 2^40, or the 32 bits that survive still land in the last bin.
   */
  lemma TreeIndexExact(s: nat)
    requires s >= 0x100
    ensures TreeIndex(s) < NTREEBINS
    ensures InBin(s, TreeIndex(s)) <==> (s < TWO_40 || Prefix(s, 8) % TWO_32 >= 0xC000)
  {
    var full := Prefix(s, 8);
    var x := full % TWO_32;
    Pow2Table();
    PrefixBound(s, 8, TWO_32);
    assert s < TWO_40 <==> full < TWO_32 by {
      assert TWO_32 * Pow2(8) == TWO_40;
    }
    PrefixBound(s, 8, 1);
    assert full >= 1;
    PrefixCompose(s, 8, 14);
    Prefix14(full);
    MinSizeAsPrefix(s, 31);
    assert InBin(s, 31) <==> full >= 0xC000;
    if s >= TWO_40 {
      if x == 0 {
        NotBelowLast(s, 0);
      } else if x <= 0xFFFF {
        var k := HighBit(x);
        HighBitBound(x, 16);
        if x >= 0xC000 {
          HighBitOfTop(x);
          WrapKeepsBit14(full);
          PrefixCompose(s, 8, 14);
          assert Bit(s, 22) == Bit(full, 14) == Bit(x, 14);
          Prefix14(x);
        } else {
          if k == 15 {
            HighBitPrefix(x);
            Prefix14(x);
            WrapKeepsBit14(full);
            assert Bit(s, 22) == Bit(full, 14);
          }
          NotBelowLast(s, TreeIndex(s));
        }
      }
    } else {
      TreeIndexBelow40(s);
    }
  }

  lemma Prefix14(x: nat)
    ensures Prefix(x, 14) >= 3 <==> x >= 0xC000
    ensures Prefix(x, 15) == Prefix(x, 14) / 2
    ensures x < 0x1_0000 ==> Prefix(x, 14) < 4
  {
    Pow2Table();
    assert Pow2(15) * 2 == Pow2(16) && Pow2(14) * 2 == Pow2(15);
    PrefixBound(x, 14, 3);
    PrefixBound(x, 14, 4);
  }

  lemma HighBitOfTop(x: nat)
    requires 0xC000 <= x <= 0xFFFF
    ensures HighBit(x) == 15
  {
    Pow2Table();
    HighBitBound(x, 16);
    HighBitPrefix(x);
    if HighBit(x) < 15 {
      Prefix14(x);
      PrefixWidenOne(x, HighBit(x), 14);
    }
  }

  /** Once a prefix is at most one it stays at most one. */
  lemma {:induction false} PrefixWidenOne(x: nat, k: nat, m: nat)
    requires k <= m && Prefix(x, k) <= 1
    ensures Prefix(x, m) <= 1
    decreases m
  {
    if k < m {
      PrefixWidenOne(x, k, m - 1);
    }
  }

  /** Dropping multiples of 2^k leaves the bits below k alone. */
  lemma {:induction false} PrefixDrop(x: nat, h: nat, j: nat, k: nat)
    requires j <= k
    ensures Prefix(x + h * Pow2(k), j) == Prefix(x, j) + h * Pow2(k - j)
    decreases j
  {
    if j > 0 {
      PrefixDrop(x, h, j - 1, k);
      assert h * Pow2(k - (j - 1)) == 2 * (h * Pow2(k - j));
    }
  }

  lemma WrapKeepsBit14(full: nat)
    ensures Bit(full % TWO_32, 14) == Bit(full, 14)
  {
    var x, h := full % TWO_32, full / TWO_32;
    Pow2Table();
    PrefixDrop(x, h, 14, 32);
    assert Pow2(18) == 4 * Pow2(16);
    SameParity(Prefix(x, 14), h, Pow2(18));
    assert full == x + h * TWO_32;
  }

  lemma SameParity(x: nat, h: nat, p: nat)
    requires p == 0x4_0000
    ensures (x + h * p) % 2 == x % 2
  {
  }

  lemma NotBelowLast(s: nat, i: nat)
    requires s >= TWO_40 && i < NTREEBINS - 1
    ensures !InBin(s, i)
  {
    MinSizeMonotone(i + 1, 31);
    Pow2Table();
    assert Pow2(23) == 2 * Pow2(22);
    assert MinSize(31) == 0xC0_0000;
  }

  lemma TreeIndexBelow40(s: nat)
    requires 0x100 <= s < TWO_40
    ensures TreeIndex(s) < NTREEBINS && InBin(s, TreeIndex(s))
  {
    var x := Prefix(s, 8);
    Pow2Table();
    PrefixBound(s, 8, TWO_32);
    PrefixBound(s, 8, 1);
    assert x % TWO_32 == x;
    if x > 0xFFFF {
      Prefix14(x);
      PrefixCompose(s, 8, 14);
      MinSizeAsPrefix(s, 31);
    } else {
      HighBitBound(x, 16);
      LeadingTwoBits(s, HighBit(x));
    }
  }

  lemma HighestBits(s: nat, k: nat)
    requires Prefix(s, 8) >= 1 && k == HighBit(Prefix(s, 8)) && k < 16
    ensures Prefix(s, k + 7) == 2 + Bit(s, k + 7)
  {
    HighBitPrefix(Prefix(s, 8));
    PrefixCompose(s, 8, k);
    assert Prefix(s, 8 + k) == 1;
    assert Prefix(s, k + 8) == Prefix(s, k + 7) / 2;
  }

  /** The bin of a size from its highest bit and the bit below it. */
  lemma LeadingTwoBits(s: nat, k: nat)
    requires Prefix(s, 8) >= 1 && k == HighBit(Prefix(s, 8)) && k < 16
    ensures InBin(s, 2 * k + Bit(s, k + 7))
  {
    var i := 2 * k + Bit(s, k + 7);
    HighestBits(s, k);
    assert i / 2 == k && i % 2 == Bit(s, k + 7);
    InBinIsLeadingBits(s, i);
    if i == 31 {
      MinSizeAsPrefix(s, 31);
    }
  }

  lemma {:induction false} PrefixOfZero(k: nat)
    ensures Prefix(0, k) == 0
  {
    if k > 0 {
      PrefixOfZero(k - 1);
    }
  }

  /** A witness of the narrowing: 2^40 bytes are filed under bin 0. */
  lemma TreeIndexWraps()
    ensures TreeIndex(TWO_40) == 0
    ensures !InBin(TWO_40, TreeIndex(TWO_40))
  {
    Pow2Table();
    PrefixDrop(0, 1, 8, 40);
    PrefixOfZero(8);
    NotBelowLast(TWO_40, 0);
  }

  /** All sizes of one bin agree above the bin's top level. */
  lemma SameBinSamePrefix(s: nat, t: nat, i: nat)
    requires i < NTREEBINS && s < TWO_64 && t < TWO_64 && InBin(s, i) && InBin(t, i)
    ensures Prefix(s, TopLevel(i)) == Prefix(t, TopLevel(i))
  {
    if i == NTREEBINS - 1 {
      PrefixOfSmall(s);
      PrefixOfSmall(t);
    } else {
      InBinIsLeadingBits(s, i);
      InBinIsLeadingBits(t, i);
    }
  }

  /** A size between two sizes of the bin is in the bin. */
  lemma TreeIndexMonotone(s: nat, t: nat)
    requires 0x100 <= s <= t < TWO_40
    ensures TreeIndex(s) <= TreeIndex(t)
  {
    TreeIndexBelow40(s);
    TreeIndexBelow40(t);
    if TreeIndex(t) < TreeIndex(s) {
      BinsOrdered(t, TreeIndex(t), s, TreeIndex(s));
    }
  }
}
