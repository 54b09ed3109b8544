/**
 * The 32-bit bin maps: one bit per bin, searched with the two's-complement tricks
 * `x & -x` and `(x << 1) | -(x << 1)` instead of by scanning.  Words are naturals
 * below 2^32 and the bitwise operators are defined bit by bit.
 */
module BinMap {
  import opened Basics
  import opened SizeBits

  type binmap = x: nat | x < TWO_32 witness 0

  // --------------------------------------------------------------------------
  // Bitwise operators
  // --------------------------------------------------------------------------

  function And(x: nat, y: nat): nat {
    if x == 0 then 0 else 2 * And(x / 2, y / 2) + (if x % 2 == 1 && y % 2 == 1 then 1 else 0)
  }

  function Or(x: nat, y: nat): nat
    decreases x + y
  {
    if x + y == 0 then 0 else 2 * Or(x / 2, y / 2) + (if x % 2 == 1 || y % 2 == 1 then 1 else 0)
  }

  /** `x & ~y`. */
  function AndNot(x: nat, y: nat): nat {
    if x == 0 then 0 else 2 * AndNot(x / 2, y / 2) + (if x % 2 == 1 && y % 2 == 0 then 1 else 0)
  }

  /** `-x` in `w` bits. */
  function Neg(x: nat, w: nat): nat
    requires x < Pow2(w)
  {
    if x == 0 then 0 else Pow2(w) - x
  }

  lemma BitOfHalf(z: nat, i: nat)
    ensures Bit(z, i + 1) == Bit(z / 2, i)
  {
    PrefixCompose(z, 1, i);
    assert Prefix(z, 1) == z / 2;
  }

  lemma {:induction false} AndBit(x: nat, y: nat, i: nat)
    ensures Bit(And(x, y), i) == 1 <==> Bit(x, i) == 1 && Bit(y, i) == 1
    decreases i
  {
    if i == 0 {
    } else {
      AndBit(x / 2, y / 2, i - 1);
      BitOfHalf(x, i - 1);
      BitOfHalf(y, i - 1);
      BitOfHalf(And(x, y), i - 1);
    }
  }

  lemma {:induction false} OrBit(x: nat, y: nat, i: nat)
    ensures Bit(Or(x, y), i) == 1 <==> Bit(x, i) == 1 || Bit(y, i) == 1
    decreases i
  {
    if i == 0 {
    } else {
      OrBit(x / 2, y / 2, i - 1);
      BitOfHalf(x, i - 1);
      BitOfHalf(y, i - 1);
      BitOfHalf(Or(x, y), i - 1);
    }
  }

  lemma {:induction false} AndNotBit(x: nat, y: nat, i: nat)
    ensures Bit(AndNot(x, y), i) == 1 <==> Bit(x, i) == 1 && Bit(y, i) == 0
    decreases i
  {
    if i == 0 {
    } else {
      AndNotBit(x / 2, y / 2, i - 1);
      BitOfHalf(x, i - 1);
      BitOfHalf(y, i - 1);
      BitOfHalf(AndNot(x, y), i - 1);
    }
  }

  lemma {:induction false} OrBelow(x: nat, y: nat, w: nat)
    requires x < Pow2(w) && y < Pow2(w)
    ensures Or(x, y) < Pow2(w)
    decreases w
  {
    if w > 0 {
      OrBelow(x / 2, y / 2, w - 1);
    }
  }

  lemma {:induction false} AndAtMost(x: nat, y: nat)
    ensures And(x, y) <= x && AndNot(x, y) <= x
    decreases x
  {
    if x > 0 {
      AndAtMost(x / 2, y / 2);
    }
  }

  lemma {:induction false} AndComplement(z: nat, w: nat)
    requires z < Pow2(w)
    ensures And(z, Pow2(w) - 1 - z) == 0
    decreases w
  {
    if w > 0 && z > 0 {
      AndComplement(z / 2, w - 1);
      assert (Pow2(w) - 1 - z) / 2 == Pow2(w - 1) - 1 - z / 2;
    }
  }

  /** Bits of a power of two. */
  lemma {:induction false} Pow2Bit(t: nat, j: nat)
    ensures Bit(Pow2(t), j) == if t == j then 1 else 0
    decreases j
  {
    if j > 0 {
      BitOfHalf(Pow2(t), j - 1);
      if t > 0 {
        assert Pow2(t) / 2 == Pow2(t - 1);
        Pow2Bit(t - 1, j - 1);
      } else {
        PrefixOfZero(j - 1);
      }
    }
  }

  /** Bits of `-(2^t)` in `w` bits: all of those from `t` up. */
  lemma {:induction false} NegPow2Bit(t: nat, w: nat, j: nat)
    requires t <= w && Pow2(t) <= Pow2(w) && j < w
    ensures Bit(Pow2(w) - Pow2(t), j) == 1 <==> t <= j
    decreases w
  {
    if j > 0 {
      BitOfHalf(Pow2(w) - Pow2(t), j - 1);
      if t > 0 {
        assert (Pow2(w) - Pow2(t)) / 2 == Pow2(w - 1) - Pow2(t - 1);
        NegPow2Bit(t - 1, w - 1, j - 1);
      } else {
        assert (Pow2(w) - 1) / 2 == Pow2(w - 1) - Pow2(0);
        NegPow2Bit(0, w - 1, j - 1);
      }
    }
  }

  lemma {:induction false} Pow2Monotone(t: nat, w: nat)
    requires t <= w
    ensures Pow2(t) <= Pow2(w)
    decreases w
  {
    if t < w {
      Pow2Monotone(t, w - 1);
    }
  }

  // --------------------------------------------------------------------------
  // Bin maps
  // --------------------------------------------------------------------------

  /** idx2bit. */
  function Idx2Bit(i: nat): binmap
    requires i < 32
  {
    Pow2Monotone(i, 31);
    Pow2Table();
    Pow2(i)
  }

  predicate Marked(m: binmap, i: nat) {
    Bit(m, i) == 1
  }

  function Mark(m: binmap, i: nat): binmap
    requires i < 32
  {
    Pow2Table();
    OrBelow(m, Idx2Bit(i), 32);
    Or(m, Idx2Bit(i))
  }

  function Clear(m: binmap, i: nat): binmap
    requires i < 32
  {
    AndAtMost(m, Idx2Bit(i));
    AndNot(m, Idx2Bit(i))
  }

  /** mark_*map changes the membership of one bin only. */
  lemma MarkOne(m: binmap, i: nat, j: nat)
    requires i < 32
    ensures Marked(Mark(m, i), j) <==> i == j || Marked(m, j)
  {
    OrBit(m, Idx2Bit(i), j);
    Pow2Bit(i, j);
  }

  /** clear_*map changes the membership of one bin only. */
  lemma ClearOne(m: binmap, i: nat, j: nat)
    requires i < 32
    ensures Marked(Clear(m, i), j) <==> i != j && Marked(m, j)
  {
    AndNotBit(m, Idx2Bit(i), j);
    Pow2Bit(i, j);
  }

  /** least_bit. */
  function LeastBit(x: binmap): binmap {
    Pow2Table();
    AndAtMost(x, Neg(x, 32));
    And(x, Neg(x, 32))
  }

  /** left_bits. */
  function LeftBits(x: binmap): binmap {
    var y := (2 * x) % TWO_32;
    Pow2Table();
    OrBelow(y, Neg(y, 32), 32);
    Or(y, Neg(y, 32))
  }

  /** compute_bit2idx: count trailing zeros. */
  function Bit2Idx(x: nat): nat
    requires x > 0
  {
    if x % 2 == 1 then 0 else 1 + Bit2Idx(x / 2)
  }

  lemma {:induction false} Bit2IdxIsLeast(x: nat, j: nat)
    requires x > 0
    ensures j < Bit2Idx(x) ==> Bit(x, j) == 0
    ensures Bit(x, Bit2Idx(x)) == 1
    decreases x
  {
    if x % 2 == 0 {
      Bit2IdxIsLeast(x / 2, if j > 0 then j - 1 else 0);
      BitOfHalf(x, Bit2Idx(x / 2));
      if j > 0 {
        BitOfHalf(x, j - 1);
      }
    }
  }

  lemma {:induction false} Bit2IdxOfPow2(t: nat)
    ensures Bit2Idx(Pow2(t)) == t
  {
    if t > 0 {
      Bit2IdxOfPow2(t - 1);
    }
  }

  /** `x & -x` is the single bit at the number of trailing zeros. */
  lemma {:induction false} LeastBitIsolates(x: nat, w: nat)
    requires 0 < x < Pow2(w)
    ensures And(x, Neg(x, w)) == Pow2(Bit2Idx(x))
    decreases x
  {
    if x % 2 == 1 {
      assert Neg(x, w) / 2 == Pow2(w - 1) - 1 - x / 2;
      AndComplement(x / 2, w - 1);
    } else {
      LeastBitIsolates(x / 2, w - 1);
      assert Neg(x, w) / 2 == Neg(x / 2, w - 1);
    }
  }

  /** The index computed from the isolated bit is the least marked bin. */
  lemma LeastMarked(m: binmap)
    requires m != 0
    ensures LeastBit(m) != 0
    ensures var i := Bit2Idx(LeastBit(m));
      i < 32 && Marked(m, i) && forall j :: 0 <= j < i ==> !Marked(m, j)
  {
    Pow2Table();
    LeastBitIsolates(m, 32);
    var i := Bit2Idx(m);
    Bit2IdxOfPow2(i);
    Bit2IdxIsLeast(m, 0);
    if i >= 32 {
      MarkedBelow32(m, i);
    }
    forall j | 0 <= j < i
      ensures !Marked(m, j)
    {
      Bit2IdxIsLeast(m, j);
    }
  }

  lemma MarkedBelow32(m: binmap, j: nat)
    requires Marked(m, j)
    ensures j < 32
  {
    if j >= 32 {
      Pow2Table();
      PrefixBound(m, 32, 1);
      PrefixWidenZero(m, 32, j);
    }
  }

  lemma {:induction false} PrefixWidenZero(x: nat, k: nat, m: nat)
    requires k <= m && Prefix(x, k) == 0
    ensures Prefix(x, m) == 0
    decreases m
  {
    if k < m {
      PrefixWidenZero(x, k, m - 1);
    }
  }

  /** `left_bits(idx2bit(k)) & m` keeps exactly the marked bins after `k`. */
  lemma LeftBitsAreLaterBins(m: binmap, k: nat, j: nat)
    requires k < 32
    ensures Marked(AndMap(LeftBits(Idx2Bit(k)), m), j) <==> k < j && Marked(m, j)
  {
    var left := LeftBits(Idx2Bit(k));
    AndBit(left, m, j);
    if Marked(m, j) {
      MarkedBelow32(m, j);
      LeftBitsBit(k, j);
    }
  }

  function AndMap(x: binmap, y: binmap): binmap {
    AndAtMost(x, y);
    And(x, y)
  }

  lemma LeftBitsBit(k: nat, j: nat)
    requires k < 32 && j < 32
    ensures Bit(LeftBits(Idx2Bit(k)), j) == 1 <==> k < j
  {
    Pow2Table();
    if k == 31 {
      PrefixOfZero(j);
      assert Pow2(31) * 2 == Pow2(32);
    } else {
      Pow2Monotone(k + 1, 31);
      assert Pow2(31) * 2 == Pow2(32);
      var y := Pow2(k + 1);
      assert (2 * Pow2(k)) % TWO_32 == y;
      OrBit(y, Pow2(32) - y, j);
      Pow2Bit(k + 1, j);
      NegPow2Bit(k + 1, 32, j);
    }
  }

  /** `(m >> i) << i` keeps the marks from `i` up. */
  lemma {:induction false} ShiftBackBit(m: nat, i: nat, j: nat)
    ensures Bit(Prefix(m, i) * Pow2(i), j) == if j < i then 0 else Bit(m, j)
    decreases i
  {
    if i > 0 {
      PrefixCompose(m, 1, i - 1);
      assert Prefix(m, 1) == m / 2;
      var y := Prefix(m / 2, i - 1) * Pow2(i - 1);
      assert Prefix(m, i) * Pow2(i) == 2 * y by {
        Rescale(Prefix(m, i), Pow2(i - 1));
      }
      if j > 0 {
        ShiftBackBit(m / 2, i - 1, j - 1);
        BitOfHalf(2 * y, j - 1);
        BitOfHalf(m, j - 1);
      }
    }
  }

  lemma Rescale(x: int, y: int)
    ensures x * (2 * y) == 2 * (x * y)
  {
  }

  lemma ShiftBackBounded(m: nat, i: nat)
    ensures Prefix(m, i) * Pow2(i) <= m
  {
    PrefixBound(m, i, Prefix(m, i));
  }

  /** The two low bits of `m >> i` are the marks of bins `i` and `i + 1`. */
  lemma LowTwoBits(m: nat, i: nat)
    ensures Prefix(m, i) % 4 != 0 <==> Bit(m, i) == 1 || Bit(m, i + 1) == 1
    ensures Prefix(m, i) % 2 == Bit(m, i)
  {
  }

  lemma {:induction false} NoBitsAbove(m: nat, i: nat, j: nat)
    requires Prefix(m, i) == 0 && i <= j
    ensures Bit(m, j) == 0
  {
    PrefixWidenZero(m, i, j);
  }

  /** `((m >> i) << i) & left_bits(idx2bit(i))`: the marked bins after `i`. */
  function LaterBins(m: binmap, i: nat): binmap
    requires i < 32
  {
    ShiftBackBounded(m, i);
    AndMap(Prefix(m, i) * Pow2(i), LeftBits(Idx2Bit(i)))
  }

  /** Its least bit is the next marked bin, if bin `i` itself is unmarked. */
  lemma NextMarked(m: binmap, i: nat)
    requires i < 32 && Prefix(m, i) != 0 && !Marked(m, i)
    ensures LaterBins(m, i) != 0 && LeastBit(LaterBins(m, i)) != 0
    ensures var n := Bit2Idx(LeastBit(LaterBins(m, i)));
      i < n < 32 && Marked(m, n) && forall j :: i <= j < n ==> !Marked(m, j)
  {
    var later := LaterBins(m, i);
    forall j | 0 <= j < 32 ensures Marked(later, j) <==> i < j && Marked(m, j) {
      LaterMarked(m, i, j);
    }
    var n := MarkedFrom(m, i);
    if later == 0 {
      PrefixOfZero(n);
    }
    LeastMarked(later);
  }

  lemma LaterMarked(m: binmap, i: nat, j: nat)
    requires i < 32 && j < 32
    ensures Marked(LaterBins(m, i), j) <==> i < j && Marked(m, j)
  {
    ShiftBackBounded(m, i);
    AndBit(Prefix(m, i) * Pow2(i), LeftBits(Idx2Bit(i)), j);
    ShiftBackBit(m, i, j);
    LeftBitsBit(i, j);
  }

  /** A map that is not zero from bin `i` on has a marked bin there. */
  lemma MarkedFrom(m: binmap, i: nat) returns (n: nat)
    requires i < 32 && Prefix(m, i) != 0
    ensures i <= n < 32 && Marked(m, n)
  {
    var t := Bit2Idx(Prefix(m, i));
    Bit2IdxIsLeast(Prefix(m, i), 0);
    PrefixCompose(m, i, t);
    n := i + t;
    MarkedBelow32(m, n);
  }
}
