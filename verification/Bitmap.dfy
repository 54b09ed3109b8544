/**
 * The multi-level bitmap of a run.  Level 0 has a bit for each region, set while the region
 * is free; each bit of a higher level tells whether a group of the level below has a bit set.
 * A group is the set of the positions of its one bits.
 */
module Bitmap {
  const NBITS: nat := 64

  type Group = set<nat>
  type Levels = seq<seq<Group>>

  /** bits2groups. */
  function Bits2Groups(n: nat): (g: nat)
    ensures forall k :: GroupsFor(n, k) <==> k == g
  {
    n / NBITS + (if n % NBITS != 0 then 1 else 0)
  }

  /** `g` groups are just enough for `n` bits. */
  predicate GroupsFor(n: nat, g: nat) {
    n <= NBITS * g < n + NBITS
  }

  /** The group of a bit: bit >> LG_BITMAP_GROUP_NBITS. */
  function Hi(b: nat): nat {
    if b < NBITS then 0 else 1 + Hi(b - NBITS)
  }

  /** The position of a bit in its group. */
  function Lo(b: nat): (r: nat)
    ensures r < NBITS && NBITS * Hi(b) + r == b
  {
    if b < NBITS then b else Lo(b - NBITS)
  }

  /** How many bits a level has. */
  function Count(lv: Levels, n: nat, i: nat): nat
    requires i <= |lv|
  {
    if i == 0 then n else |lv[i - 1]|
  }

  predicate IsSet(lv: Levels, i: nat, b: nat) {
    i < |lv| && Hi(b) < |lv[i]| && Lo(b) in lv[i][Hi(b)]
  }

  ghost predicate Shape(lv: Levels, n: nat) {
    && n > 0 && |lv| > 0 && |lv[|lv| - 1]| == 1
    && (forall i {:trigger lv[i]} :: 0 <= i < |lv| ==> GroupsFor(Count(lv, n, i), |lv[i]|))
    && (forall i, j, b :: 0 <= i < |lv| && 0 <= j < |lv[i]| && b in lv[i][j] ==> b < NBITS && NBITS * j + b < Count(lv, n, i))
  }

  /** Bit `j` of level `i + 1` is set exactly when group `j` of level `i` has a bit set. */
  ghost predicate Linked(lv: Levels, i: nat, j: nat) {
    i + 1 < |lv| && j < |lv[i]| ==> (IsSet(lv, i + 1, j) <==> lv[i][j] != {})
  }

  ghost predicate Inv(lv: Levels, n: nat) {
    Shape(lv, n) && forall i, j {:trigger Linked(lv, i, j)} :: 0 <= i && 0 <= j ==> Linked(lv, i, j)
  }

  /** ffsl(g) - 1. */
  lemma {:induction false} LeastExists(g: Group) returns (b: nat)
    requires g != {}
    ensures b in g && forall c :: c in g ==> b <= c
  {
    var x :| x in g;
    if g == {x} {
      b := x;
    } else {
      var y := LeastExists(g - {x});
      assert forall c :: c in g ==> c == x || c in g - {x};
      b := if x < y then x else y;
    }
  }

  method First(g: Group) returns (b: nat)
    requires g != {}
    ensures b in g && forall c :: c in g ==> b <= c
  {
    ghost var least := LeastExists(g);
    b :| b in g && forall c :: c in g ==> b <= c;
  }

  /** `bit` is the least bit set in the level. */
  ghost predicate LeastSet(lv: Levels, i: nat, bit: nat) {
    IsSet(lv, i, bit) && forall b :: 0 <= b < bit ==> !IsSet(lv, i, b)
  }

  /** If a level's least set bit names a group, that group's first bit is the least one below. */
  lemma LeastBelow(lv: Levels, n: nat, i: nat, bit: nat, first: nat)
    requires Inv(lv, n) && i + 1 < |lv| && LeastSet(lv, i + 1, bit)
    requires bit < |lv[i]| ==> first in lv[i][bit] && forall c :: c in lv[i][bit] ==> first <= c
    ensures bit < |lv[i]| && LeastSet(lv, i, NBITS * bit + first)
  {
    assert Lo(bit) in lv[i + 1][Hi(bit)];
    assert first in lv[i][bit];
    forall b | 0 <= b < NBITS * bit + first ensures !IsSet(lv, i, b) {
      NothingLower(lv, n, i, bit, first, b);
    }
    Compose(bit, first);
  }

  lemma Compose(q: nat, r: nat)
    requires r < NBITS
    ensures Hi(NBITS * q + r) == q && Lo(NBITS * q + r) == r
  {
    var b := NBITS * q + r;
    assert NBITS * Hi(b) + Lo(b) == b;
  }

  lemma NothingLower(lv: Levels, n: nat, i: nat, bit: nat, first: nat, b: nat)
    requires Inv(lv, n) && i + 1 < |lv| && LeastSet(lv, i + 1, bit) && bit < |lv[i]| && b < NBITS * bit + first && first < NBITS
    requires forall c :: c in lv[i][bit] ==> first <= c
    ensures !IsSet(lv, i, b)
  {
    var q, r := Hi(b), Lo(b);
    assert Linked(lv, i, q);
    if q < bit {
      assert !IsSet(lv, i + 1, q);
    }
  }

  /** The root group is empty exactly when no bit of level 0 is set. */
  lemma {:induction false} RootTells(lv: Levels, n: nat, i: nat, b: nat)
    requires Inv(lv, n) && lv[|lv| - 1][0] == {} && i < |lv|
    ensures !IsSet(lv, i, b)
    decreases |lv| - i
  {
    if i + 1 < |lv| {
      RootTells(lv, n, i + 1, Hi(b));
      assert Linked(lv, i, Hi(b));
    }
  }

  // --------------------------------------------------------------------------
  // Sizes of the levels
  // --------------------------------------------------------------------------

  const MAXBITS: nat := 2048
  const MAX_LEVELS: nat := 4

  /** The groups of all levels of a bitmap with `n` bits. */
  function Groups(n: nat): nat {
    if n <= NBITS then Bits2Groups(n) else Bits2Groups(n) + Groups(Bits2Groups(n))
  }

  lemma Bits2GroupsMonotone(m: nat, n: nat)
    requires m <= n
    ensures Bits2Groups(m) <= Bits2Groups(n)
  {
    assert GroupsFor(m, Bits2Groups(m)) && GroupsFor(n, Bits2Groups(n));
  }

  /** A bitmap with more bits is not smaller. */
  lemma {:induction false} GroupsMonotone(m: nat, n: nat)
    requires m <= n
    ensures Groups(m) <= Groups(n)
  {
    Bits2GroupsMonotone(m, n);
    assert GroupsFor(m, Bits2Groups(m)) && GroupsFor(n, Bits2Groups(n));
    if m > NBITS {
      GroupsMonotone(Bits2Groups(m), Bits2Groups(n));
    }
  }

  /**
   * bitmap_info_init: where each level's groups begin, and after them all.  The levels that
   * the table has room for are enough.
   */
  method BitmapInfoInit(nbits: nat) returns (offset: array<nat>, nlevels: nat)
    requires 0 < nbits <= MAXBITS
    ensures fresh(offset) && offset.Length == MAX_LEVELS + 1 && 0 < nlevels <= 2
    ensures offset[0] == 0 && offset[nlevels] == Groups(nbits)
    ensures forall i :: 0 <= i < nlevels ==> offset[i] < offset[i + 1]
    ensures nlevels == 1 ==> nbits <= NBITS
    ensures offset[1] == Bits2Groups(nbits) && (nlevels == 2 ==> offset[2] == offset[1] + 1)
  {
    offset := new nat[MAX_LEVELS + 1];
    offset[0] := 0;
    var count := Bits2Groups(nbits);
    assert GroupsFor(nbits, count);
    var i := 1;
    while count > 1
      invariant 1 <= i <= 2 && offset[0] == 0
      invariant i == 1 ==> count == Bits2Groups(nbits)
      invariant i == 2 ==> nbits > NBITS && count == 1 == Bits2Groups(Bits2Groups(nbits)) && offset[1] == Bits2Groups(nbits)
      decreases 2 - i
    {
      offset[i] := offset[i - 1] + count;
      assert GroupsFor(count, Bits2Groups(count)) && GroupsFor(count, 1);
      count := Bits2Groups(count);
      i := i + 1;
    }
    offset[i] := offset[i - 1] + count;
    nlevels := i;
    assert nbits <= NBITS ==> GroupsFor(nbits, 1);
  }

  /** All bits of a level set: of the last group only those that stand for something. */
  function FullLevel(count: nat): (l: seq<Group>)
    ensures |l| == Bits2Groups(count)
    ensures forall j :: 0 <= j < |l| ==> l[j] == FullGroup(count, j)
  {
    seq(Bits2Groups(count), j requires 0 <= j => FullGroup(count, j))
  }

  function FullGroup(count: nat, j: nat): Group {
    set b | 0 <= b < NBITS && Stands(count, j, b)
  }

  predicate Stands(count: nat, j: nat, b: nat) {
    NBITS * j + b < count
  }

  /** A group of one bits only. */
  function Ones(): Group {
    FullGroup(NBITS, 0)
  }

  /** The group word shifted right. */
  function ShiftRight(g: Group, n: nat): Group {
    set b | 0 <= b < NBITS && MovesTo(g, n, b)
  }

  predicate MovesTo(g: Group, n: nat, b: nat) {
    b + n in g
  }

  /** The groups of one level in bitmap_init: all bits are set, and the extra bits shifted out of the last group. */
  method InitLevel(count: nat) returns (l: seq<Group>)
    requires count > 0
    ensures l == FullLevel(count)
  {
    var groups := Bits2Groups(count);
    assert GroupsFor(count, groups);
    l := seq(groups, _ => Ones());
    var extra := (NBITS - count % NBITS) % NBITS;
    if extra != 0 {
      l := l[groups - 1 := ShiftRight(l[groups - 1], extra)];
    }
    forall j | 0 <= j < groups ensures l[j] == FullGroup(count, j) {
      InitGroup(count, groups, extra, j);
    }
  }

  lemma InitGroup(count: nat, groups: nat, extra: nat, j: nat)
    requires count > 0 && groups == Bits2Groups(count) && extra == (NBITS - count % NBITS) % NBITS && j < groups
    ensures (if j == groups - 1 && extra != 0 then ShiftRight(Ones(), extra) else Ones()) == FullGroup(count, j)
  {
    assert NBITS * groups == count + extra;
    forall b | 0 <= b < NBITS ensures Stands(count, j, b) <==> j < groups - 1 || b + extra < NBITS {
    }
  }

  lemma FullLevelSets(lv: Levels, i: nat, count: nat, b: nat)
    requires i < |lv| && lv[i] == FullLevel(count)
    ensures IsSet(lv, i, b) <==> b < count
  {
    assert NBITS * Hi(b) + Lo(b) == b;
    assert GroupsFor(count, Bits2Groups(count));
  }

  ghost predicate AllFull(lv: Levels, n: nat) {
    forall i {:trigger lv[i]} :: 0 <= i < |lv| ==> lv[i] == FullLevel(Count(lv, n, i))
  }

  lemma GrowFull(lv: Levels, n: nat)
    requires n > 0 && |lv| > 0 && AllFull(lv, n) && |lv[|lv| - 1]| > 1
    ensures var lv' := lv + [FullLevel(|lv[|lv| - 1]|)];
      AllFull(lv', n) && 0 < |lv'[|lv'| - 1]| < |lv[|lv| - 1]|
  {
    var count := |lv[|lv| - 1]|;
    assert GroupsFor(count, Bits2Groups(count));
    var lv' := lv + [FullLevel(count)];
    forall i {:trigger lv'[i]} | 0 <= i < |lv'| ensures lv'[i] == FullLevel(Count(lv', n, i)) {
      if i < |lv| {
        assert lv'[i] == lv[i] && Count(lv', n, i) == Count(lv, n, i);
      }
    }
  }

  lemma FullKeeps(lv: Levels, n: nat)
    requires n > 0 && |lv| > 0 && AllFull(lv, n) && |lv[|lv| - 1]| == 1
    ensures Inv(lv, n) && forall b :: 0 <= b ==> (IsSet(lv, 0, b) <==> b < n)
  {
    forall i {:trigger lv[i]} | 0 <= i < |lv| ensures GroupsFor(Count(lv, n, i), |lv[i]|) {
      assert GroupsFor(Count(lv, n, i), Bits2Groups(Count(lv, n, i)));
    }
    forall i, j | 0 <= i && 0 <= j ensures Linked(lv, i, j) {
      if i + 1 < |lv| && j < |lv[i]| {
        FullLevelSets(lv, i + 1, |lv[i]|, j);
        assert GroupsFor(Count(lv, n, i), |lv[i]|);
        assert 0 in lv[i][j];
      }
    }
    forall b ensures 0 <= b ==> (IsSet(lv, 0, b) <==> b < n) {
      if 0 <= b {
        FullLevelSets(lv, 0, n, b);
      }
    }
  }

  // --------------------------------------------------------------------------
  // Changing a bit, and what it means for the levels above
  // --------------------------------------------------------------------------

  function PutIn(g: Group, b: nat, on: bool): Group {
    if on then g + {b} else g - {b}
  }

  function Put(lv: Levels, i: nat, b: nat, on: bool): Levels
    requires i < |lv| && Hi(b) < |lv[i]|
  {
    lv[i := lv[i][Hi(b) := PutIn(lv[i][Hi(b)], Lo(b), on)]]
  }

  /** All links hold, except that bit `c` of level `i` still shows `!on` for its group. */
  ghost predicate InvBut(lv: Levels, n: nat, i: nat, c: nat, on: bool) {
    && Shape(lv, n) && i < |lv| && c < Count(lv, n, i)
    && (IsSet(lv, i, c) <==> !on)
    && (i > 0 ==> (lv[i - 1][c] != {} <==> on))
    && forall k, j {:trigger Linked(lv, k, j)} :: 0 <= k && 0 <= j && !(k + 1 == i && j == c) ==> Linked(lv, k, j)
  }

  lemma PutSets(lv: Levels, i: nat, b: nat, on: bool, k: nat, c: nat)
    requires i < |lv| && Hi(b) < |lv[i]|
    ensures IsSet(Put(lv, i, b, on), k, c) <==> if k == i && c == b then on else IsSet(lv, k, c)
  {
    assert Hi(c) == Hi(b) && Lo(c) == Lo(b) ==> c == b;
  }

  lemma PutShape(lv: Levels, n: nat, i: nat, b: nat, on: bool)
    requires Shape(lv, n) && i < |lv| && b < Count(lv, n, i)
    ensures Hi(b) < |lv[i]| && Shape(Put(lv, i, b, on), n)
  {
    assert GroupsFor(Count(lv, n, i), |lv[i]|);
    assert NBITS * Hi(b) + Lo(b) == b;
    var lv' := Put(lv, i, b, on);
    SameLengths(lv, lv', n);
    forall k, j, x | 0 <= k < |lv'| && 0 <= j < |lv'[k]| && x in lv'[k][j]
      ensures x < NBITS && NBITS * j + x < Count(lv', n, k)
    {
      assert k != i || j != Hi(b) || x != Lo(b) ==> x in lv[k][j];
    }
  }

  lemma SameLengths(lv: Levels, lv': Levels, n: nat)
    requires |lv'| == |lv| && forall k {:trigger lv'[k]} :: 0 <= k < |lv| ==> |lv'[k]| == |lv[k]|
    ensures forall k :: 0 <= k <= |lv| ==> Count(lv', n, k) == Count(lv, n, k)
    ensures Shape(lv, n) ==> |lv'[|lv'| - 1]| == 1 && forall k {:trigger lv'[k]} :: 0 <= k < |lv'| ==> GroupsFor(Count(lv', n, k), |lv'[k]|)
  {
  }

  /** Whether the change of a bit makes its group empty, or ends its being empty. */
  predicate Moves(g: Group, c: nat, on: bool) {
    if on then g == {} else PutIn(g, Lo(c), on) == {}
  }

  lemma PutLink(lv: Levels, n: nat, i: nat, c: nat, on: bool, k: nat, j: nat)
    requires InvBut(lv, n, i, c, on) && Hi(c) < |lv[i]| && !(Moves(lv[i][Hi(c)], c, on) && k == i && j == Hi(c))
    ensures Linked(Put(lv, i, c, on), k, j)
  {
    PutSets(lv, i, c, on, k + 1, j);
    if !(k + 1 == i && j == c) {
      assert Linked(lv, k, j);
    }
  }

  /** One level up: the link below is mended, and the next one is broken if the group changed state. */
  lemma PutLinks(lv: Levels, n: nat, i: nat, c: nat, on: bool)
    requires InvBut(lv, n, i, c, on)
    ensures Hi(c) < |lv[i]|
    ensures !Moves(lv[i][Hi(c)], c, on) || i + 1 == |lv| ==> Inv(Put(lv, i, c, on), n)
    ensures Moves(lv[i][Hi(c)], c, on) && i + 1 < |lv| ==> InvBut(Put(lv, i, c, on), n, i + 1, Hi(c), on)
  {
    PutShape(lv, n, i, c, on);
    var lv' := Put(lv, i, c, on);
    forall k, j {:trigger Linked(lv', k, j)} | 0 <= k && 0 <= j && !(Moves(lv[i][Hi(c)], c, on) && k == i && j == Hi(c)) ensures Linked(lv', k, j) {
      PutLink(lv, n, i, c, on, k, j);
    }
    if Moves(lv[i][Hi(c)], c, on) && i + 1 < |lv| {
      assert Linked(lv, i, Hi(c));
      PutSets(lv, i, c, on, i + 1, Hi(c));
    }
  }

  class Bitmap {
    const n: nat
    var lv: Levels

    ghost predicate Valid()
      reads this
    {
      Inv(lv, n)
    }

    predicate Free(b: nat)
      reads this
    {
      IsSet(lv, 0, b)
    }

    /** bitmap_init: all regions are free. */
    constructor (n: nat)
      requires n > 0
      ensures Valid() && this.n == n && forall b :: 0 <= b ==> (Free(b) <==> b < n)
    {
      this.n := n;
      var first := InitLevel(n);
      var levels := [first];
      assert GroupsFor(n, Bits2Groups(n));
      while |levels[|levels| - 1]| > 1
        invariant |levels| > 0 && AllFull(levels, n) && |levels[|levels| - 1]| > 0
        decreases |levels[|levels| - 1]|
      {
        GrowFull(levels, n);
        var next := InitLevel(|levels[|levels| - 1]|);
        levels := levels + [next];
      }
      FullKeeps(levels, n);
      lv := levels;
    }

    /** bitmap_full. */
    method Full() returns (full: bool)
      requires Valid()
      ensures full <==> lv[|lv| - 1][0] == {}
      ensures full <==> forall b :: 0 <= b < n ==> !Free(b)
    {
      var root := lv[|lv| - 1][0];
      full := root == {};
      if full {
        forall b | 0 <= b < n ensures !Free(b) {
          RootTells(lv, n, 0, b);
        }
      } else {
        var bit := FirstFree();
        assert Free(bit);
      }
    }

    /** The descent of bitmap_sfu. */
    method FirstFree() returns (bit: nat)
      requires Valid() && lv[|lv| - 1][0] != {}
      ensures bit < n && LeastSet(lv, 0, bit)
    {
      var i := |lv| - 1;
      bit := First(lv[i][0]);
      assert bit < NBITS;
      while i > 0
        invariant i < |lv| && LeastSet(lv, i, bit)
      {
        i := i - 1;
        assert Linked(lv, i, bit);
        BitNamesGroup(lv, n, i, bit);
        var first := First(lv[i][bit]);
        LeastBelow(lv, n, i, bit, first);
        bit := NBITS * bit + first;
      }
      assert Lo(bit) in lv[0][Hi(bit)];
    }

    /** bitmap_set and bitmap_unset: change a bit and tell the levels above where needed. */
    method Change(bit0: nat, on: bool)
      requires Valid() && bit0 < n && (Free(bit0) <==> !on)
      modifies this
      ensures Valid() && forall b :: 0 <= b ==> (Free(b) <==> if b == bit0 then on else old(Free(b)))
    {
      var bit: nat, i: nat := bit0, 0;
      ghost var lv0 := lv;
      while true
        invariant InvBut(lv, n, i, bit, on)
        invariant i == 0 ==> bit == bit0 && lv == lv0
        invariant i > 0 ==> forall b :: 0 <= b ==> (IsSet(lv, 0, b) <==> if b == bit0 then on else IsSet(lv0, 0, b))
        decreases |lv| - i
      {
        PutLinks(lv, n, i, bit, on);
        forall b ensures IsSet(Put(lv, i, bit, on), 0, b) <==> if 0 == i && b == bit then on else IsSet(lv, 0, b) {
          PutSets(lv, i, bit, on, 0, b);
        }
        var goff := Hi(bit);
        var g := lv[i][goff];
        lv := Put(lv, i, bit, on);
        if !Moves(g, bit, on) || i + 1 == |lv| {
          return;
        }
        bit, i := goff, i + 1;
      }
    }

    /** bitmap_sfu: the least free bit, which is not free any more. */
    method SetFirstUnset() returns (bit: nat)
      requires Valid() && exists b :: 0 <= b < n && Free(b)
      modifies this
      ensures Valid() && bit < n && old(Free(bit)) && forall b :: 0 <= b < bit ==> !old(Free(b))
      ensures forall b :: 0 <= b ==> (Free(b) <==> b != bit && old(Free(b)))
    {
      ghost var w :| 0 <= w < n && Free(w);
      var full := Full();
      assert !full by {
        assert Free(w);
      }
      bit := FirstFree();
      Change(bit, false);
    }
  }

  lemma BitNamesGroup(lv: Levels, n: nat, i: nat, bit: nat)
    requires Inv(lv, n) && i + 1 < |lv| && IsSet(lv, i + 1, bit)
    ensures bit < |lv[i]| && lv[i][bit] != {}
  {
    assert Lo(bit) in lv[i + 1][Hi(bit)];
    assert Linked(lv, i, bit);
  }
}
