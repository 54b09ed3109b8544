/** Rounding up to an alignment, and how much room an aligned block needs. */
module Align {

  predicate Multiple(x: int, c: int)
    requires c > 0
  {
    x % c == 0
  }

  /** ALIGNMENT_CEILING and its kin; for powers of two the same as masking. */
  function AlignUp(x: nat, al: nat): nat
    requires al > 0
  {
    (x + al - 1) / al * al
  }

  lemma MultipleIs(q: int, c: int)
    requires c > 0
    ensures Multiple(q * c, c) && q * c / c == q
  {
    assert (q * c) % c == 0 by { DivMod(q * c, c, q, 0); }
    DivMod(q * c, c, q, 0);
  }

  lemma DivMod(x: int, c: int, q: int, r: int)
    requires c > 0 && x == q * c + r && 0 <= r < c
    ensures x / c == q && x % c == r
  {
    var d := x / c - q;
    assert x == (x / c) * c + x % c;
    assert d * c == r - x % c;
    if d >= 1 {
      MulMono(1, d, c);
    }
    if d <= -1 {
      MulMono(d, -1, c);
    }
  }

  lemma DivBound(x: int, d: int, n: int)
    requires d > 0 && n * d <= x
    ensures n <= x / d
  {
    var q := x / d;
    assert x == q * d + x % d;
    if n > q {
      MulMono(q + 1, n, d);
    }
  }

  lemma MulMono(x: int, y: int, c: int)
    requires x <= y && c >= 0
    ensures x * c <= y * c
  {
  }

  lemma MultipleSum(x: int, y: int, c: int)
    requires c > 0 && Multiple(x, c) && Multiple(y, c)
    ensures Multiple(x + y, c) && Multiple(x - y, c)
  {
    var p, q := x / c, y / c;
    assert x == p * c && y == q * c;
    assert x + y == (p + q) * c && x - y == (p - q) * c;
    MultipleIs(p + q, c);
    MultipleIs(p - q, c);
  }

  lemma MultipleTrans(x: int, al: int, c: int)
    requires c > 0 && al > 0 && Multiple(x, al) && Multiple(al, c)
    ensures Multiple(x, c)
  {
    var p, q := x / al, al / c;
    assert x == p * al && al == q * c;
    assert x == (p * q) * c;
    MultipleIs(p * q, c);
  }

  /** Distinct multiples differ by at least the unit. */
  lemma MultipleGap(x: int, y: int, c: int)
    requires c > 0 && Multiple(x, c) && Multiple(y, c) && x < y
    ensures x + c <= y
  {
    var p, q := x / c, y / c;
    assert x == p * c && y == q * c;
    if q <= p {
      MulMono(q, p, c);
    } else {
      MulMono(p + 1, q, c);
    }
  }

  /** The result is the least multiple of the alignment that is not below `x`. */
  lemma AlignUpIsLeast(x: nat, al: nat, y: nat)
    requires al > 0
    ensures x <= AlignUp(x, al) < x + al && Multiple(AlignUp(x, al), al)
    ensures x <= y && Multiple(y, al) ==> AlignUp(x, al) <= y
  {
    var q := (x + al - 1) / al;
    assert x + al - 1 == q * al + (x + al - 1) % al;
    MultipleIs(q, al);
    if x <= y && Multiple(y, al) && y < q * al {
      MultipleGap(y, q * al, al);
    }
  }

  /**
   * A block of `size` at a multiple of `al` fits into every range that starts at a multiple
   * of `c` and has `al - c` to spare.
   */
  lemma AlignedBlockFits(addr: nat, room: nat, size: nat, al: nat, c: nat)
    requires c > 0 && al > 0 && Multiple(al, c) && Multiple(addr, c) && size + al - c <= room
    ensures var lead := AlignUp(addr, al) - addr;
      && 0 <= lead <= al - c && Multiple(lead, c) && lead + size <= room
  {
    AlignUpIsLeast(addr, al, addr);
    MultipleTrans(AlignUp(addr, al), al, c);
    MultipleSum(AlignUp(addr, al), addr, c);
    MultipleSum(addr, al, c);
    MultipleGap(AlignUp(addr, al), addr + al, c);
  }

  /** With one unit less to spare there is a range that holds no such block. */
  lemma AlignedBlockNeedsRoom(size: nat, al: nat, c: nat, block: nat)
    requires c > 0 && al > c && Multiple(al, c) && size > 0 && Multiple(block, al)
    requires c <= block
    ensures Multiple(c, c) && block + size > c + (size + al - 2 * c)
  {
    MultipleIs(1, c);
    MultipleIs(0, al);
    MultipleGap(0, block, al);
  }
}
