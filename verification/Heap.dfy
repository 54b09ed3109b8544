/**
 * The boundary-tag heap: dlnvmalloc and dlnvfree over one segment that may grow at its
 * end, with small bins, tree bins, the designated victim and top.
 */
module Heap {
  import opened Basics
  import opened SizeBits
  import opened BinMap
  import opened Layout
  import opened FreeChunks
  import SB = SmallBins
  import TB = TreeBins

  const TOP_FOOT_SIZE: nat := 72
  const SYS_ALLOC_PADDING: nat := TOP_FOOT_SIZE + 8
  const GRANULARITY: nat := 0x1_0000
  const MAX_SIZE_T: nat := TWO_64 - 1
  const MAX_REQUEST: nat := TWO_64 - 128
  const MAX_SMALL_REQUEST: nat := 240
  const MIN_REQUEST: nat := 23

  /** pad_request: room for the head word, rounded up to the alignment. */
  function PadRequest(bytes: nat): nat {
    (bytes + 15) / 8 * 8
  }

  /** The chunk size a request stands for; an oversized request can never be met. */
  function ChunkSizeFor(bytes: nat): (nb: nat)
    ensures bytes < MAX_REQUEST ==> bytes + 8 <= nb && (nb == MIN_CHUNK_SIZE || nb < bytes + 16)
    ensures nb >= MIN_CHUNK_SIZE
    ensures bytes < MAX_REQUEST ==> nb % 8 == 0 && (nb < 0x100 <==> bytes <= MAX_SMALL_REQUEST)
  {
    if bytes < MIN_REQUEST then MIN_CHUNK_SIZE
    else if bytes >= MAX_REQUEST then MAX_SIZE_T
    else PadRequest(bytes)
  }

  /** granularity_align in 64 bits. */
  function GranularityAlign(s: nat): nat {
    ((s + GRANULARITY - 1) % TWO_64) / GRANULARITY * GRANULARITY
  }

  /** The size sys_alloc asks the system for. */
  function SystemSize(nb: nat): nat {
    GranularityAlign((nb + SYS_ALLOC_PADDING) % TWO_64)
  }

  /** The tag words in memory. */
  datatype Tags = Tags(size: map<Addr, nat>, pinuse: map<Addr, bool>, cinuse: map<Addr, bool>, foot: map<Addr, nat>)

  datatype Fields = Fields(
    dv: Addr,
    dvsize: nat,
    top: Addr,
    topsize: nat,
    base: Addr,
    segsize: nat,
    footprint: nat,
    maxFootprint: nat,
    footprintLimit: nat)
  {
    /** What sys_alloc checks of the limit; a limit of zero is none. */
    predicate OverLimit(asize: nat) {
      footprintLimit != 0 &&
      var fp := (footprint + asize) % TWO_64;
      fp <= footprint || fp > footprintLimit
    }
  }

  function SetInuseAndPinuse(t: Tags, p: Addr, s: nat): Tags {
    Tags(t.size[p := s], t.pinuse[p := true][p + s := true], t.cinuse[p := true], t.foot)
  }

  function SetInuse(t: Tags, p: Addr, s: nat): Tags {
    Tags(t.size[p := s], t.pinuse[p := true], t.cinuse[p := true], t.foot)
  }

  function SetFree(t: Tags, p: Addr, s: nat): Tags {
    Tags(t.size[p := s], t.pinuse[p := true], t.cinuse[p := false], t.foot[p + s := s])
  }

  function SetFreeWithPinuse(t: Tags, p: Addr, s: nat, n: Addr): Tags {
    SetFree(t.(pinuse := t.pinuse[n := false]), p, s)
  }

  function SetTop(t: Tags, p: Addr, s: nat): Tags {
    Tags(t.size[p := s], t.pinuse[p := true], t.cinuse[p := false], t.foot)
  }

  function LayoutOf(t: Tags, m: Fields, chunks: set<Addr>): Layout {
    Layout(t.size, t.pinuse, t.cinuse, t.foot, m.base, m.top, m.topsize, chunks)
  }

  // --------------------------------------------------------------------------
  // What a served request looks like
  // --------------------------------------------------------------------------

  /** `p` is newly in use, tight around `nb`, and every other block in use is as before. */
  ghost predicate Served(l: Layout, l': Layout, p: Addr, nb: nat) {
    && Live(l', p) && !Live(l, p) && p in l.chunks
    && p in l'.size && nb <= l'.size[p] < nb + MIN_CHUNK_SIZE
    && (forall q {:trigger Live(l', q)} :: Live(l', q) <==> Live(l, q) || q == p)
    && (forall q {:trigger Live(l, q)} :: Live(l, q) ==> q in l.size && q in l'.size && l'.size[q] == l.size[q])
  }

  /** Blocks in use never overlap. */
  lemma LiveDisjoint(l: Layout, p: Addr, q: Addr)
    requires Inv(l) && Live(l, p) && Live(l, q) && p != q
    ensures p in l.size && q in l.size
    ensures p + l.size[p] <= q || q + l.size[q] <= p
  {
    assert ChunkOk(l, p) && ChunkOk(l, q);
    assert Apart(l, p, q) && Apart(l, q, p);
  }

  lemma WholeServed(l: Layout, p: Addr, nb: nat)
    requires Inv(l) && Free(l, p) && p in l.size && nb <= l.size[p] < nb + MIN_CHUNK_SIZE
    ensures Served(l, UseWhole(l, p), p, nb)
  {
    forall q | Live(l, q) ensures q in l.size { assert ChunkOk(l, q); }
  }

  lemma SplitServed(l: Layout, p: Addr, nb: nat)
    requires Inv(l) && CanSplit(l, p, nb)
    ensures Served(l, Split(l, p, nb), p, nb)
  {
    NothingInside(l, p, p + nb);
    forall q | Live(l, q) ensures q in l.size { assert ChunkOk(l, q); }
  }

  lemma TopServed(l: Layout, nb: nat)
    requires Inv(l) && MIN_CHUNK_SIZE <= nb < l.topsize
    ensures Served(l, CarveTop(l, nb), l.top, nb)
  {
    forall q | Live(l, q) ensures q in l.size && q <= l.top { assert ChunkOk(l, q); }
  }

  lemma AlignedSplit(l: Layout, p: Addr, nb: nat)
    requires Aligned(l) && nb % 8 == 0 && CanSplit(l, p, nb)
    ensures Aligned(Split(l, p, nb))
  {
    var l' := Split(l, p, nb);
    assert l'.End() == l.End();
  }

  /**
   * The choice of chunk.  Top is touched only when nothing else fits; a large request takes
   * a smallest fitting chunk; a small one takes a smallest binned chunk, unless the victim
   * fits and no binned chunk fits without remainder.
   */
  ghost predicate WellChosen(l: Layout, b: Binned, p: Addr, nb: nat) {
    && (p == l.top ==> NoneFits(l, nb))
    && (p != l.top ==> Free(l, p) && p in l.size && nb <= l.size[p])
    && (p != l.top && !IsSmall(nb) ==>
        forall q {:trigger Free(l, q)} :: Free(l, q) && q in l.size && nb <= l.size[q] ==> l.size[p] <= l.size[q])
    && (p != l.top && IsSmall(nb) && p != b.dv ==>
        forall q {:trigger Free(l, q)} :: Free(l, q) && q != b.dv && q in l.size && nb <= l.size[q] ==> l.size[p] <= l.size[q])
    && (p != l.top && IsSmall(nb) && p == b.dv ==>
        forall q {:trigger Free(l, q)} :: Free(l, q) && q != b.dv && q in l.size ==> l.size[q] < nb || nb + 8 < l.size[q] || !IsSmall(l.size[q]))
  }

  /** Every free chunk is too small. */
  ghost predicate NoneFits(l: Layout, nb: nat) {
    forall q {:trigger Free(l, q)} :: Free(l, q) && q in l.size ==> l.size[q] < nb
  }

  /** `p` is no longer in use and every other block in use is as before. */
  ghost predicate Freed(l: Layout, l': Layout, p: Addr) {
    && (forall q {:trigger Live(l', q)} :: Live(l', q) <==> Live(l, q) && q != p)
    && (forall q {:trigger Live(l, q)} :: Live(l, q) && q != p ==> q in l.size && q in l'.size && l'.size[q] == l.size[q])
  }

  lemma VictimCompare(dvsize: nat, nb: nat, size: nat)
    requires nb <= size < TWO_40 && dvsize < TWO_40
    ensures size - nb < Sub64(dvsize, nb) <==> !(nb <= dvsize <= size)
  {
    if dvsize < nb {
      assert Sub64(dvsize, nb) == TWO_64 - (nb - dvsize);
    }
  }

  // --------------------------------------------------------------------------
  // Requests served from top and from the victim
  // --------------------------------------------------------------------------

  /** What a valid heap keeps, apart from the bins themselves. */
  ghost predicate WellKept(l: Layout, b: Binned) {
    Inv(l) && Aligned(l) && Match(l, b, {})
  }

  lemma CarveTopServes(l: Layout, b: Binned, nb: nat)
    requires WellKept(l, b) && MIN_CHUNK_SIZE <= nb < l.topsize && nb % 8 == 0
    ensures WellKept(CarveTop(l, nb), b) && Served(l, CarveTop(l, nb), l.top, nb) && CarveTop(l, nb).End() == l.End() && l.top > 0
  {
    BeforeEnd(l, l.top);
    CarveTopKeeps(l, nb);
    CarveTopMatch(l, b, nb);
    TopServed(l, nb);
  }

  lemma GrowTopFits(l: Layout, b: Binned, n: nat)
    requires WellKept(l, b) && n % 8 == 0
    ensures WellKept(GrowTop(l, n), b) && GrowTop(l, n).End() == l.End() + n
  {
    BeforeEnd(l, l.top);
    GrowTopKeeps(l, n);
    GrowTopMatch(l, b, n);
  }

  /** A request served from a top that has grown. */
  lemma GrownServed(l: Layout, l': Layout, n: nat, nb: nat)
    requires Inv(l) && Served(GrowTop(l, n), l', l.top, nb)
    ensures Served(l, l', l.top, nb)
  {
    var l1 := GrowTop(l, n);
    forall q ensures Live(l1, q) <==> Live(l, q) { }
    forall q | Live(l, q) ensures q in l.size && q != l.top { assert ChunkOk(l, q); }
  }

  lemma VictimInHand(l: Layout, b: Binned)
    requires Match(l, b, {}) && b.dvsize > 0
    ensures Match(l, b.(dv := 0, dvsize := 0), {b.dv})
  {
    TakeVictim(l, b, {});
    assert {} + {b.dv} == {b.dv};
  }

  /** The rest of the victim is the new victim. */
  lemma SplitVictim(l: Layout, b: Binned, nb: nat)
    requires WellKept(l, b) && CanSplit(l, b.dv, nb) && b.dvsize > 0 && nb % 8 == 0
    ensures b.dv in l.size && l.size[b.dv] == b.dvsize
    ensures var l' := Split(l, b.dv, nb);
      WellKept(l', b.(dv := b.dv + nb, dvsize := b.dvsize - nb)) && Served(l, l', b.dv, nb) && l'.End() == l.End()
  {
    var p := b.dv;
    VictimInHand(l, b);
    SplitMatch(l, b.(dv := 0, dvsize := 0), p, nb);
    SplitKeeps(l, p, nb);
    SplitServed(l, p, nb);
    AlignedSplit(l, p, nb);
    PutVictim(Split(l, p, nb), b.(dv := 0, dvsize := 0), {p + nb}, p + nb);
    assert {p + nb} - {p + nb} == {};
  }

  class Heap {
    var tags: Tags
    var m: Fields
    const small: SB.SmallBins
    const large: TB.TreeBins
    ghost var chunks: set<Addr>

    ghost function L(): Layout
      reads this
    {
      LayoutOf(tags, m, chunks)
    }

    ghost function B(): Binned
      reads this, small, large
    {
      Binned(m.dv, m.dvsize, small.Contents(), large.Contents())
    }

    ghost predicate SegmentOk()
      reads this
    {
      && m.top + m.topsize + TOP_FOOT_SIZE == m.base + m.segsize && m.segsize < TWO_40
      && m.segsize == m.footprint <= m.maxFootprint
    }

    /** do_check_malloc_state. */
    ghost predicate Valid()
      reads this, small, large
    {
      && Inv(L()) && Aligned(L()) && Match(L(), B(), {})
      && small.Valid() && large.Valid() && SegmentOk()
    }

    constructor (base: Addr, segsize: nat, footprintLimit: nat)
      requires base > 0 && base % 8 == 0 && segsize % 8 == 0 && TOP_FOOT_SIZE < segsize < TWO_40
      ensures Valid() && fresh(small) && fresh(large)
      ensures m.top == base && L() == Initial(base, segsize - TOP_FOOT_SIZE)
    {
      var topsize := segsize - TOP_FOOT_SIZE;
      small := new SB.SmallBins();
      large := new TB.TreeBins();
      tags := Tags(map[base := topsize], map[base := true, base + topsize := false], map[base := false], map[]);
      m := Fields(0, 0, base, topsize, base, segsize, segsize, segsize, footprintLimit);
      chunks := {base};
      new;
      InitialOk(base, topsize);
      assert L() == Initial(base, topsize);
    }

    /** The heap with the free chunks `x` in hand: out of the bins but not yet rewritten. */
    ghost predicate Holding(x: set<Addr>)
      reads this, small, large
    {
      && Inv(L()) && Aligned(L()) && Match(L(), B(), x)
      && small.Valid() && large.Valid() && SegmentOk()
    }

    lemma InHand(x: set<Addr>, p: Addr)
      requires Holding(x) && Free(L(), p)
      ensures p in tags.size && 0 < p && MIN_CHUNK_SIZE <= tags.size[p] < TWO_40 && tags.size[p] % 8 == 0
      ensures p + tags.size[p] <= m.top
    {
      BeforeEnd(L(), p);
      BeforeEnd(L(), Next(L(), p));
      SizesAligned(L(), p);
    }

    // ------------------------------------------------------------------------
    // Rewriting tags and binning
    // ------------------------------------------------------------------------

    /** Hand out a whole free chunk. */
    method UseAll(p: Addr, s: nat, ghost nb: nat)
      requires Holding({p}) && Free(L(), p) && p in tags.size && tags.size[p] == s && nb <= s < nb + MIN_CHUNK_SIZE
      modifies this
      ensures Valid() && B() == old(B()) && Served(old(L()), L(), p, nb)
    {
      ghost var l := L();
      UseWholeKeeps(l, p);
      UseWholeMatch(l, B(), p);
      WholeServed(l, p, nb);
      tags := SetInuseAndPinuse(tags, p, s);
      assert tags.size == l.size;
      assert L() == UseWhole(l, p);
      assert L().End() == l.End();
    }

    /** Hand out the front of a free chunk and hold on to the rest. */
    method SplitOff(p: Addr, nb: nat, rsize: nat)
      requires Holding({p}) && CanSplit(L(), p, nb) && nb % 8 == 0 && rsize == tags.size[p] - nb
      modifies this
      ensures Holding({p + nb}) && B() == old(B()) && Served(old(L()), L(), p, nb)
      ensures Free(L(), p + nb) && p + nb in tags.size && tags.size[p + nb] == rsize
    {
      ghost var l := L();
      SplitKeeps(l, p, nb);
      SplitMatch(l, B(), p, nb);
      SplitServed(l, p, nb);
      AlignedSplit(l, p, nb);
      tags := SetInuse(tags, p, nb);
      tags := SetFree(tags, p + nb, rsize);
      chunks := chunks + {p + nb};
      assert L() == Split(l, p, nb);
    }

    /** insert_chunk: the chunk in hand goes to its bin. */
    method InsertChunk(p: Addr, s: nat)
      requires Holding({p}) && Free(L(), p) && p in tags.size && tags.size[p] == s
      modifies small, large
      ensures Valid() && L() == old(L())
    {
      ghost var l, b := L(), B();
      InHand({p}, p);
      if IsSmall(s) {
        PutSmall(l, b, {p}, p);
        small.InsertSmall(p, s);
        assert B() == b.(small := b.small[p := s]);
      } else {
        PutLarge(l, b, {p}, p);
        HeadsAgree({p});
        large.InsertLarge(tags.size, p, s);
        assert B() == b.(large := b.large[p := s]);
      }
      assert {p} - {p} == {};
    }

    /** The tree bins read true sizes from the head words. */
    lemma HeadsAgree(x: set<Addr>)
      requires Holding(x)
      ensures large.Heads(tags.size)
    {
      forall a | a in large.Contents() ensures a in tags.size && tags.size[a] == large.Contents()[a] {
        assert KeptOk(L(), B(), a);
      }
    }

    /** replace_dv: the old victim goes to a small bin and the chunk in hand becomes victim. */
    method ReplaceDv(p: Addr, s: nat)
      requires Holding({p}) && Free(L(), p) && p in tags.size && tags.size[p] == s && IsSmall(m.dvsize)
      modifies this, small
      ensures Valid() && L() == old(L()) && m == old(m).(dv := p, dvsize := s)
      ensures small.Contents() ==
        if old(m).dvsize == 0 then old(small.Contents()) else old(small.Contents())[old(m).dv := old(m).dvsize]
    {
      ghost var l, b := L(), B();
      InHand({p}, p);
      if m.dvsize != 0 {
        InHand({p}, m.dv);
        TakeVictim(l, b, {p});
        ghost var b1 := b.(dv := 0, dvsize := 0);
        PutSmall(l, b1, {p} + {b.dv}, b.dv);
        small.InsertSmall(m.dv, m.dvsize);
        assert {p} + {b.dv} - {b.dv} == {p};
        ghost var b2 := b1.(small := b1.small[b.dv := b.dvsize]);
        PutVictim(l, b2, {p}, p);
        m := m.(dvsize := s, dv := p);
        assert B() == b2.(dv := p, dvsize := s);
      } else {
        PutVictim(l, b, {p}, p);
        m := m.(dvsize := s, dv := p);
        assert B() == b.(dv := p, dvsize := s);
      }
      assert {p} - {p} == {};
      assert L() == l;
    }

    // ------------------------------------------------------------------------
    // malloc
    // ------------------------------------------------------------------------

    /** A free chunk other than the victim is binned, and its bin is marked. */
    lemma WhereKept(q: Addr)
      requires Valid() && Free(L(), q) && q != m.dv
      ensures q in tags.size
      ensures if tags.size[q] < 0x100 then
                && q in small.Contents() && small.Contents()[q] == tags.size[q]
                && tags.size[q] % 8 == 0 && Marked(small.smallmap, tags.size[q] / 8)
              else q in large.Contents() && large.Contents()[q] == tags.size[q] && large.treemap != 0
    {
      assert KeptOk(L(), B(), q);
      if q in small.Contents() {
        small.MarksTell(q, 0);
      } else {
        large.MapTells(q);
      }
    }

    /** tmalloc_large: a best-fitting tree chunk, unless the victim is at least as good. */
    method TmallocLarge(nb: nat) returns (p: Addr)
      requires Valid() && 0x100 <= nb < TWO_64 && nb % 8 == 0
      modifies this, small, large
      ensures Valid()
      ensures p != 0 ==> Served(old(L()), L(), p, nb) && WellChosen(old(L()), old(B()), p, nb)
      ensures p == 0 ==> L() == old(L()) && B() == old(B()) && m == old(m)
      ensures p == 0 ==> forall q :: Free(L(), q) && q in tags.size && nb <= tags.size[q] ==> nb <= m.dvsize <= tags.size[q]
    {
      HeadsAgree({});
      var v, rsize := large.FindBestFit(tags.size, nb);
      LargeChoice(nb, v);
      if v != 0 && rsize < Sub64(m.dvsize, nb) {
        CarveLarge(v, nb, rsize);
        return v;
      }
      p := 0;
    }

    /** Comparing remainders with wrap-around tells whether the victim is at least as good. */
    lemma LargeChoice(nb: nat, v: Addr)
      requires Valid() && 0x100 <= nb < TWO_64 && large.IsBestFit(nb, v)
      ensures v != 0 ==> v in tags.size && tags.size[v] == large.Contents()[v] && v in L().chunks && v != m.dv
      ensures v != 0 && large.Contents()[v] - nb < Sub64(m.dvsize, nb) ==> WellChosen(L(), B(), v, nb)
      ensures v == 0 || large.Contents()[v] - nb >= Sub64(m.dvsize, nb) ==>
        forall q :: Free(L(), q) && q in tags.size && nb <= tags.size[q] ==> nb <= m.dvsize <= tags.size[q]
    {
      var l, b := L(), B();
      if v != 0 {
        large.MapTells(v);
        assert KeptOk(l, b, v);
        assert VictimOk(l, b);
        if m.dvsize != 0 { InHand({}, m.dv); }
        VictimCompare(m.dvsize, nb, large.Contents()[v]);
      }
      forall q | Free(l, q) && q in l.size && nb <= l.size[q]
        ensures q != m.dv ==> v != 0 && l.size[v] <= l.size[q]
        ensures q == m.dv ==> m.dvsize == l.size[q]
      {
        if q != m.dv { WhereKept(q); }
        InHand({}, q);
      }
    }

    /** Unlink the chosen tree chunk and split it, binning the rest. */
    method CarveLarge(v: Addr, nb: nat, rsize: nat)
      requires Valid() && 0x100 <= nb < TWO_64 && nb % 8 == 0 && v in large.Contents() && large.Contents()[v] == nb + rsize
      modifies this, small, large
      ensures Valid() && Served(old(L()), L(), v, nb)
    {
      ghost var l, b := L(), B();
      assert KeptOk(l, b, v);
      TakeLarge(l, b, {}, v);
      large.UnlinkLarge(v);
      assert B() == b.(large := b.large - {v}) && {} + {v} == {v};
      if rsize < MIN_CHUNK_SIZE {
        UseAll(v, rsize + nb, nb);
      } else {
        SplitOff(v, nb, rsize);
        InsertChunk(v + nb, rsize);
      }
    }

    /** tmalloc_small: the least tree chunk serves a small request; the rest becomes victim. */
    method TmallocSmall(nb: nat) returns (p: Addr)
      requires Valid() && MIN_CHUNK_SIZE <= nb < 0x100 && nb % 8 == 0 && large.treemap != 0 && IsSmall(m.dvsize)
      requires m.dvsize < nb
      requires forall q :: q in small.Contents() ==> small.Contents()[q] < nb
      modifies this, small, large
      ensures Valid() && p != 0
      ensures Served(old(L()), L(), p, nb) && WellChosen(old(L()), old(B()), p, nb)
    {
      ghost var l, b := L(), B();
      HeadsAgree({});
      var v, rsize := large.FindLeast(tags.size, nb);
      large.MapTells(v);
      assert KeptOk(l, b, v);
      forall q | Free(l, q) && q != b.dv && q in l.size && nb <= l.size[q] ensures l.size[v] <= l.size[q] {
        WhereKept(q);
      }
      assert v != b.dv;
      assert WellChosen(l, b, v, nb);
      TakeLarge(l, b, {}, v);
      large.UnlinkLarge(v);
      assert B() == b.(large := b.large - {v}) && {} + {v} == {v};
      if rsize < MIN_CHUNK_SIZE {
        UseAll(v, rsize + nb, nb);
      } else {
        SplitOff(v, nb, rsize);
        ReplaceDv(v + nb, rsize);
      }
      p := v;
    }

    /** A small chunk at least as small as every bin that fits is a smallest binned fit. */
    lemma SmallChoice(nb: nat, i: nat, p: Addr)
      requires Valid() && MIN_CHUNK_SIZE <= nb < 0x100 && nb % 8 == 0 && nb <= 8 * i < 0x100
      requires p in small.Contents() && small.Contents()[p] == 8 * i
      requires forall j :: nb / 8 <= j < i ==> !Marked(small.smallmap, j)
      ensures WellChosen(L(), B(), p, nb)
    {
      var l, b := L(), B();
      assert KeptOk(l, b, p);
      forall q | Free(l, q) && q != b.dv && q in l.size && nb <= l.size[q] ensures l.size[p] <= l.size[q] {
        WhereKept(q);
        if l.size[q] < 0x100 {
          assert Marked(small.smallmap, l.size[q] / 8);
        }
      }
    }

    /** Take the first chunk of small bin `i` for a request of `nb` bytes. */
    method CarveSmall(nb: nat, i: nat) returns (p: Addr)
      requires Valid() && MIN_CHUNK_SIZE <= nb < 0x100 && nb % 8 == 0 && nb <= 8 * i < 0x100
      requires Marked(small.smallmap, i) && (MIN_CHUNK_SIZE <= 8 * i - nb ==> IsSmall(m.dvsize))
      requires forall j :: nb / 8 <= j < i ==> !Marked(small.smallmap, j)
      modifies this, small, large
      ensures Valid() && p > 0
      ensures Served(old(L()), L(), p, nb) && WellChosen(old(L()), old(B()), p, nb)
    {
      ghost var l, b := L(), B();
      small.MarksTell(0, i);
      p := small.FirstOf(i);
      SmallChoice(nb, i, p);
      TakeSmall(l, b, {}, p);
      small.MarksTell(p, i);
      small.UnlinkFirst(i, p);
      assert B() == b.(small := b.small - {p}) && {} + {p} == {p};
      var rsize := 8 * i - nb;
      if rsize < MIN_CHUNK_SIZE {
        UseAll(p, 8 * i, nb);
      } else {
        SplitOff(p, nb, rsize);
        ReplaceDv(p + nb, rsize);
      }
    }

    /** Serve the request from the designated victim. */
    method CarveVictim(nb: nat) returns (p: Addr)
      requires Valid() && MIN_CHUNK_SIZE <= nb <= m.dvsize && nb % 8 == 0
      modifies this
      ensures Valid() && p == old(m.dv) && p > 0 && Served(old(L()), L(), p, nb)
    {
      ghost var l, b := L(), B();
      InHand({}, m.dv);
      VictimInHand(l, b);
      var rsize := m.dvsize - nb;
      p := m.dv;
      if rsize >= MIN_CHUNK_SIZE {
        SplitOffVictim(nb, rsize);
      } else {
        var dvs := m.dvsize;
        m := m.(dv := 0, dvsize := 0);
        assert B() == b.(dv := 0, dvsize := 0) && L() == l;
        UseAll(p, dvs, nb);
      }
    }

    /** The front of the victim serves the request and the rest stays victim. */
    method SplitOffVictim(nb: nat, rsize: nat)
      requires Valid() && CanSplit(L(), m.dv, nb) && m.dvsize > 0 && nb % 8 == 0 && rsize == m.dvsize - nb
      modifies this
      ensures Valid() && Served(old(L()), L(), old(m.dv), nb)
    {
      ghost var l, b := L(), B();
      SplitVictim(l, b, nb);
      var p, r := m.dv, m.dv + nb;
      m := m.(dv := r, dvsize := rsize);
      tags := SetFree(tags, r, rsize);
      tags := SetInuse(tags, p, nb);
      chunks := chunks + {r};
      assert L() == Split(l, p, nb);
      assert B() == b.(dv := r, dvsize := rsize);
    }

    /** Serve the request from top. */
    method CarveFromTop(nb: nat) returns (p: Addr)
      requires Valid() && MIN_CHUNK_SIZE <= nb < m.topsize && nb % 8 == 0
      modifies this
      ensures Valid() && p == old(m.top) && p > 0 && Served(old(L()), L(), p, nb)
    {
      ghost var l, b := L(), B();
      CarveTopServes(l, b, nb);
      p := m.top;
      var r, rsize := p + nb, m.topsize - nb;
      m := m.(top := r, topsize := rsize);
      tags := SetTop(tags, r, rsize);
      tags := SetInuse(tags, p, nb);
      chunks := chunks + {r};
      assert L() == CarveTop(l, nb);
      assert B() == b;
    }

    /** sys_alloc when the system extends the segment in place: top grows, then serves. */
    method SysAlloc(nb: nat, more: bool) returns (p: Addr)
      requires Valid() && MIN_CHUNK_SIZE <= nb < TWO_64 && (SystemSize(nb) > nb ==> nb % 8 == 0)
      requires more ==> m.segsize + SystemSize(nb) < TWO_40
      modifies this
      ensures Valid()
      ensures p == 0 <==> !more || SystemSize(nb) <= nb || old(m).OverLimit(SystemSize(nb))
      ensures p == 0 ==> L() == old(L()) && B() == old(B())
      ensures p != 0 ==> p == old(m.top) && Served(old(L()), L(), p, nb)
    {
      var asize := SystemSize(nb);
      if asize <= nb || m.OverLimit(asize) || !more {
        return 0;
      }
      ghost var l := L();
      ExtendTop(asize);
      p := CarveFromTop(nb);
      GrownServed(l, L(), asize, nb);
    }

    /** The new memory follows the segment: top grows. */
    method ExtendTop(asize: nat)
      requires Valid() && asize % 8 == 0 && m.segsize + asize < TWO_40
      modifies this
      ensures Valid() && L() == GrowTop(old(L()), asize) && B() == old(B())
      ensures m.top == old(m).top && m.topsize == old(m).topsize + asize
    {
      ghost var l, b := L(), B();
      GrowTopFits(l, b, asize);
      m := m.(footprint := m.footprint + asize);
      if m.footprint > m.maxFootprint {
        m := m.(maxFootprint := m.footprint);
      }
      m := m.(segsize := m.segsize + asize, topsize := m.topsize + asize);
      tags := SetTop(tags, m.top, m.topsize);
      tags := tags.(pinuse := tags.pinuse[m.top + m.topsize := false]);
      assert L() == GrowTop(l, asize);
      assert B() == b;
    }

    /** No binned chunk can serve a small request of `nb` bytes. */
    lemma NothingBinned(nb: nat)
      requires Valid() && MIN_CHUNK_SIZE <= nb < 0x100 && nb % 8 == 0 && Prefix(small.smallmap, nb / 8) == 0
      ensures forall q :: q in small.Contents() ==> small.Contents()[q] < nb
      ensures large.treemap == 0 ==> forall q :: Free(L(), q) && q != m.dv && q in tags.size ==> tags.size[q] < nb
    {
      forall q | q in small.Contents() ensures small.Contents()[q] < nb {
        small.MarksTell(q, 0);
        if nb <= small.Contents()[q] {
          NoBitsAbove(small.smallmap, nb / 8, small.Contents()[q] / 8);
        }
      }
      if large.treemap == 0 {
        forall q | Free(L(), q) && q != m.dv && q in tags.size ensures tags.size[q] < nb {
          WhereKept(q);
        }
      }
    }

    /** No binned chunk of size `nb` or `nb + 8` exists. */
    lemma NoRemainderless(nb: nat)
      requires Valid() && MIN_CHUNK_SIZE <= nb < 0x100 && nb % 8 == 0
      requires !Marked(small.smallmap, nb / 8) && !Marked(small.smallmap, nb / 8 + 1)
      ensures forall q :: Free(L(), q) && q != m.dv && q in tags.size ==>
                tags.size[q] < nb || nb + 8 < tags.size[q] || !IsSmall(tags.size[q])
    {
      forall q | Free(L(), q) && q != m.dv && q in tags.size && IsSmall(tags.size[q])
        ensures tags.size[q] < nb || nb + 8 < tags.size[q]
      {
        WhereKept(q);
      }
    }

    /** The bin search for a small request; 0 means the victim or top must serve it. */
    method SmallRequest(nb: nat) returns (p: Addr)
      requires Valid() && MIN_CHUNK_SIZE <= nb < 0x100 && nb % 8 == 0
      modifies this, small, large
      ensures Valid()
      ensures p != 0 ==> Served(old(L()), L(), p, nb) && WellChosen(old(L()), old(B()), p, nb)
      ensures p == 0 ==> L() == old(L()) && B() == old(B()) && m == old(m)
      ensures p == 0 && nb <= m.dvsize ==> WellChosen(L(), B(), m.dv, nb)
      ensures p == 0 && m.dvsize < nb ==> WellChosen(L(), B(), m.top, nb)
    {
      var idx := nb / 8;
      var smallbits := Prefix(small.smallmap, idx);
      LowTwoBits(small.smallmap, idx);
      if smallbits % 4 != 0 {
        idx := idx + (1 - smallbits % 2);
        MarkedBelow32(small.smallmap, idx);
        p := CarveSmall(nb, idx);
        return;
      }
      NoRemainderless(nb);
      if nb > m.dvsize {
        if smallbits != 0 {
          NextMarked(small.smallmap, idx);
          var i := Bit2Idx(LeastBit(LaterBins(small.smallmap, idx)));
          p := CarveSmall(nb, i);
          return;
        }
        NothingBinned(nb);
        if large.treemap != 0 {
          p := TmallocSmall(nb);
          return;
        }
      }
      p := 0;
      SmallFallback(nb);
    }

    /** With nothing binned to take, the victim or top is the right choice. */
    lemma SmallFallback(nb: nat)
      requires Valid() && MIN_CHUNK_SIZE <= nb < 0x100
      requires nb <= m.dvsize ==> forall q :: Free(L(), q) && q != m.dv && q in tags.size ==>
                 tags.size[q] < nb || nb + 8 < tags.size[q] || !IsSmall(tags.size[q])
      requires m.dvsize < nb ==> forall q :: Free(L(), q) && q != m.dv && q in tags.size ==> tags.size[q] < nb
      ensures nb <= m.dvsize ==> WellChosen(L(), B(), m.dv, nb)
      ensures m.dvsize < nb ==> WellChosen(L(), B(), m.top, nb)
    {
      forall q | Free(L(), q) ensures q != 0 { InHand({}, q); }
    }

    /** The search for a large request; 0 means the victim, top or the system must serve it. */
    method LargeRequest(nb: nat) returns (p: Addr)
      requires Valid() && 0x100 <= nb < TWO_64 && nb % 8 == 0
      modifies this, small, large
      ensures Valid()
      ensures p != 0 ==> Served(old(L()), L(), p, nb) && WellChosen(old(L()), old(B()), p, nb)
      ensures p == 0 ==> L() == old(L()) && B() == old(B()) && m == old(m)
      ensures p == 0 && nb <= m.dvsize ==> WellChosen(L(), B(), m.dv, nb)
      ensures p == 0 && m.dvsize < nb ==> WellChosen(L(), B(), m.top, nb)
    {
      if large.treemap != 0 {
        p := TmallocLarge(nb);
      } else {
        p := 0;
        OnlyVictim(nb);
      }
    }

    /** Serve from the victim, from top, or from memory the system adds. */
    method Fallback(nb: nat, more: bool) returns (p: Addr)
      requires Valid() && MIN_CHUNK_SIZE <= nb < TWO_64
      requires nb <= m.dvsize || nb < m.topsize || SystemSize(nb) > nb ==> nb % 8 == 0
      requires more ==> m.segsize + SystemSize(nb) < TWO_40
      modifies this
      ensures Valid()
      ensures p != 0 ==> Served(old(L()), L(), p, nb) && p == if nb <= old(m.dvsize) then old(m.dv) else old(m.top)
      ensures p == 0 ==> L() == old(L()) && B() == old(B()) && m.dvsize < nb && m.topsize <= nb && (more ==> SystemSize(nb) <= nb || old(m).OverLimit(SystemSize(nb)))
    {
      if nb <= m.dvsize {
        p := CarveVictim(nb);
      } else if nb < m.topsize {
        p := CarveFromTop(nb);
      } else {
        p := SysAlloc(nb, more);
      }
    }

    /** dlnvmalloc up to the conversion of the chunk to the user pointer. */
    method MallocChunk(bytes: nat, nb: nat, more: bool) returns (p: Addr)
      requires Valid() && bytes < TWO_64 && nb == ChunkSizeFor(bytes)
      requires more ==> m.segsize + SystemSize(nb) < TWO_40
      modifies this, small, large
      ensures Valid()
      ensures p != 0 ==> Served(old(L()), L(), p, nb) && WellChosen(old(L()), old(B()), p, nb)
      ensures p == 0 ==> L() == old(L()) && B() == old(B()) && m.topsize <= nb && WellChosen(L(), B(), m.top, nb)
      ensures p == 0 ==> more ==> SystemSize(nb) <= nb || old(m).OverLimit(SystemSize(nb))
    {
      p := 0;
      if bytes <= MAX_SMALL_REQUEST {
        p := SmallRequest(nb);
      } else if bytes >= MAX_REQUEST {
        Oversized(nb);
      } else {
        p := LargeRequest(nb);
      }
      if p == 0 {
        assert m.dvsize < nb ==> WellChosen(L(), B(), m.top, nb);
        p := Fallback(nb, more);
      }
    }

    /**
     * dlnvmalloc.  `more` says whether the system would extend the segment.  A block is
     * handed out unless nothing fits and the system refuses; it is aligned, new, tight and
     * well chosen, and every block in use before stays as it was.
     */
    method Malloc(bytes: nat, more: bool) returns (mem: Addr)
      requires Valid() && bytes < TWO_64
      requires more ==> m.segsize + SystemSize(ChunkSizeFor(bytes)) < TWO_40
      modifies this, small, large
      ensures Valid()
      ensures mem != 0 ==>
        && Served(old(L()), L(), mem - 16, ChunkSizeFor(bytes))
        && WellChosen(old(L()), old(B()), mem - 16, ChunkSizeFor(bytes))
        && mem % 8 == 0
      ensures mem == 0 ==>
        && L() == old(L()) && B() == old(B())
        && (more ==> SystemSize(ChunkSizeFor(bytes)) <= ChunkSizeFor(bytes) || old(m).OverLimit(SystemSize(ChunkSizeFor(bytes))))
        && m.topsize <= ChunkSizeFor(bytes)
        && NoneFits(L(), ChunkSizeFor(bytes))
    {
      var nb := ChunkSizeFor(bytes);
      var p := MallocChunk(bytes, nb, more);
      if p == 0 {
        return 0;
      }
      BeforeEnd(L(), p);
      mem := p + 16;
    }

    lemma Oversized(nb: nat)
      requires Valid() && nb == MAX_SIZE_T
      ensures SystemSize(nb) <= nb && m.dvsize < nb && m.topsize < nb
      ensures WellChosen(L(), B(), m.top, nb)
    {
      BeforeEnd(L(), m.top);
      BeforeEnd(L(), m.base);
      if m.dvsize > 0 { InHand({}, m.dv); }
      forall q | Free(L(), q) && q in tags.size ensures tags.size[q] < nb { InHand({}, q); }
    }

    lemma OnlyVictim(nb: nat)
      requires Valid() && 0x100 <= nb && large.treemap == 0
      ensures forall q :: Free(L(), q) && q in tags.size && nb <= tags.size[q] ==> nb <= m.dvsize <= tags.size[q]
    {
      forall q | Free(L(), q) && q in tags.size && nb <= tags.size[q] ensures nb <= m.dvsize <= tags.size[q] {
        InHand({}, q);
        if q != m.dv {
          WhereKept(q);
        }
      }
    }

    // ------------------------------------------------------------------------
    // free
    // ------------------------------------------------------------------------

    /** unlink_chunk: a binned chunk is taken in hand. */
    method UnlinkChunk(p: Addr, s: nat, ghost x: set<Addr>)
      requires Holding(x) && Free(L(), p) && p !in x && p != m.dv && p in tags.size && tags.size[p] == s
      modifies small, large
      ensures Holding(x + {p}) && L() == old(L()) && B().dv == old(B()).dv && B().dvsize == old(B()).dvsize
    {
      ghost var l, b := L(), B();
      assert KeptOk(l, b, p);
      if IsSmall(s) {
        TakeSmall(l, b, x, p);
        small.UnlinkSmall(p, s);
        assert B() == b.(small := b.small - {p});
      } else {
        TakeLarge(l, b, x, p);
        large.UnlinkLarge(p);
        assert B() == b.(large := b.large - {p});
      }
    }

    /**
     * The state in which free has consolidated backward: `q` is where the free chunk will
     * start, `p` the block being freed and `next` the chunk after it.
     */
    ghost predicate Consolidated(q: Addr, p: Addr, next: Addr, x: set<Addr>)
      reads this, small, large
    {
      && Inv(L()) && Aligned(L()) && Live(L(), p) && p in tags.size && next == p + tags.size[p]
      && q in tags.size && q in chunks && q in tags.pinuse && tags.pinuse[q]
      && (q != p ==> Free(L(), q) && q + tags.size[q] == p && x == if q == m.dv then {} else {q})
      && (q == p ==> x == {})
    }

    /** The chunks from `q` to `e` are `q`, `p` and, if free, the one after `p`. */
    lemma Between(q: Addr, p: Addr, next: Addr, x: set<Addr>, e: Addr, a: Addr)
      requires Consolidated(q, p, next, x) && a in chunks && q <= a < e
      requires next in tags.size ==> e == next || e == next + tags.size[next]
      ensures next in tags.size && (a == q || a == p || (a == next && e != next))
    {
      var l := L();
      assert ChunkOk(l, p) && ChunkOk(l, q);
      assert Apart(l, q, a) && Apart(l, p, a) && Apart(l, next, a);
    }

    /** What lies between `q` and `e` is in hand, apart from the block itself and the victim. */
    lemma RangeInHand(q: Addr, p: Addr, next: Addr, x: set<Addr>, e: Addr)
      requires Consolidated(q, p, next, x) && next in tags.size
      requires (e == next && Live(L(), next)) || (e == next + tags.size[next] && Free(L(), next))
      ensures CanFree(L(), q, e) && Freed(L(), FreeRange(L(), q, e), p)
      ensures forall a :: Free(L(), a) && q <= a < e ==> a == q || (a == next && e != next)
      ensures q == p ==> !Free(L(), q)
      ensures FreeRange(L(), q, e).End() == L().End() && Aligned(FreeRange(L(), q, e))
    {
      var l := L();
      BeforeEnd(l, p);
      BeforeEnd(l, q);
      BeforeEnd(l, next);
      if e != next {
        BeforeEnd(l, e);
      }
      var l' := FreeRange(l, q, e);
      forall a | a in chunks && q <= a < e ensures a == q || a == p || (a == next && e != next) {
        Between(q, p, next, x, e, a);
      }
      forall a | Live(l, a) ensures a in l.size { assert ChunkOk(l, a); }
    }

    /** The tags of the merged free chunk from `q` to `e`. */
    method MergeTags(q: Addr, psize: nat, e: Addr)
      requires Inv(L()) && CanFree(L(), q, e) && psize == e - q
      modifies this
      ensures L() == FreeRange(old(L()), q, e) && m == old(m)
    {
      ghost var l := L();
      tags := SetFreeWithPinuse(tags, q, psize, e);
      chunks := set a | a in chunks && (a <= q || e <= a);
      BeforeEnd(l, q);
      assert tags.pinuse == FreeRange(l, q, e).pinuse;
    }

    /** The merged chunk becomes, or stays, the designated victim. */
    method FreeAsVictim(q: Addr, p: Addr, next: Addr, psize: nat, e: Addr, ghost x: set<Addr>, ghost y: set<Addr>)
      requires Consolidated(q, p, next, x) && next in tags.size && psize == e - q && m.dvsize > 0 && (q == m.dv || next == m.dv)
      requires (e == next && Live(L(), next)) || (e == next + tags.size[next] && Free(L(), next))
      requires Holding(y) && y == if e != next && next != m.dv then x + {next} else x
      modifies this
      ensures Valid() && Freed(old(L()), L(), p)
    {
      ghost var l, b := L(), B();
      RangeInHand(q, p, next, x, e);
      FreeRangeKeeps(l, q, e);
      BeforeEnd(l, p);
      VictimRange(l, b, y, q, e);
      MergeTags(q, psize, e);
      m := m.(dv := q, dvsize := psize);
      assert L() == FreeRange(l, q, e);
      assert B() == b.(dv := q, dvsize := psize);
    }

    /** The merged chunk goes to its bin. */
    method FreeToBin(q: Addr, p: Addr, next: Addr, psize: nat, e: Addr, ghost x: set<Addr>, ghost y: set<Addr>)
      requires Consolidated(q, p, next, x) && next in tags.size && psize == e - q && q != m.dv && next != m.dv
      requires (e == next && Live(L(), next)) || (e == next + tags.size[next] && Free(L(), next))
      requires Holding(y) && y == if e != next then x + {next} else x
      modifies this, small, large
      ensures Valid() && Freed(old(L()), L(), p)
    {
      ghost var l, b := L(), B();
      RangeInHand(q, p, next, x, e);
      FreeRangeKeeps(l, q, e);
      BeforeEnd(l, p);
      BeforeEnd(l, e);
      FreeRangeMatch(l, b, y, q, e);
      MergeTags(q, psize, e);
      assert B() == b;
      InsertChunk(q, psize);
    }

    /** The block borders top and becomes part of it. */
    method FreeToTop(q: Addr, p: Addr, next: Addr, psize: nat, ghost x: set<Addr>)
      requires Consolidated(q, p, next, x) && Holding(x) && next == m.top && psize == next - q
      modifies this
      ensures Valid() && Freed(old(L()), L(), p)
    {
      ghost var l, b := L(), B();
      TopRange(q, p, next, x);
      if q == m.dv {
        VictimIntoTop(l, b, q);
      } else {
        FreeIntoTopMatch(l, b, x, q);
      }
      var tsize := m.topsize + psize;
      tags := SetTop(tags, q, tsize);
      m := if q == m.dv then m.(dv := 0, dvsize := 0, top := q, topsize := tsize) else m.(topsize := tsize, top := q);
      chunks := set a | a in chunks && a <= q;
      assert L() == FreeIntoTop(l, q);
    }

    lemma TopRange(q: Addr, p: Addr, next: Addr, x: set<Addr>)
      requires Consolidated(q, p, next, x) && Holding(x) && next == m.top
      ensures q < L().End() && Inv(FreeIntoTop(L(), q)) && Freed(L(), FreeIntoTop(L(), q), p)
      ensures forall a :: Free(L(), a) && q <= a ==> a == q
      ensures q == p ==> !Free(L(), q)
      ensures q == m.dv ==> m.dvsize > 0
      ensures FreeIntoTop(L(), q).End() == L().End() && Aligned(FreeIntoTop(L(), q))
    {
      var l := L();
      BeforeEnd(l, p);
      BeforeEnd(l, q);
      BeforeEnd(l, next);
      forall a | a in chunks && q <= a ensures a == q || a == p || a == next {
        if a < next {
          Between(q, p, next, x, next, a);
        } else {
          BeforeEnd(l, a);
        }
      }
      FreeIntoTopKeeps(l, q);
      forall a | Live(l, a) ensures a in l.size { assert ChunkOk(l, a); }
    }

    /**
     * dlnvfree of a block in use (or of nothing): consolidate backward, then forward, then
     * bin.  Exactly that block is no longer in use.
     */
    method FreeBlock(mem: Addr)
      requires Valid() && (mem != 0 ==> Live(L(), mem - 16))
      modifies this, small, large
      ensures Valid()
      ensures mem == 0 ==> L() == old(L())
      ensures mem != 0 ==> Freed(old(L()), L(), mem - 16)
    {
      if mem == 0 {
        return;
      }
      var p := mem - 16;
      ghost var l := L();
      BeforeEnd(l, p);
      var psize := tags.size[p];
      var next := p + psize;
      BeforeEnd(l, next);
      var q := p;
      ghost var x: set<Addr> := {};
      if !tags.pinuse[p] {
        var prevsize := tags.foot[p];
        q := p - prevsize;
        psize := psize + prevsize;
        BeforeEnd(l, q);
        if q != m.dv {
          UnlinkChunk(q, prevsize, {});
          assert {} + {q} == {q};
          x := {q};
        } else if tags.cinuse[next] && tags.pinuse[next] {
          InHand({}, q);
          FreeAsVictim(q, p, next, psize, next, {}, {});
          return;
        }
      }
      assert m == old(m);
      if m.dvsize == 0 { assert m.dv == 0 && q > 0 && next > 0; }
      FinishFree(q, p, next, psize, x);
    }

    /** The forward half of dlnvfree. */
    method FinishFree(q: Addr, p: Addr, next: Addr, psize: nat, ghost x: set<Addr>)
      requires Consolidated(q, p, next, x) && Holding(x) && psize == next - q && next in tags.size && next in tags.cinuse
      requires q == m.dv || next == m.dv ==> m.dvsize > 0
      requires q == m.dv ==> !tags.cinuse[next]
      modifies this, small, large
      ensures Valid() && Freed(old(L()), L(), p)
    {
      BeforeEnd(L(), p);
      BeforeEnd(L(), next);
      if !tags.cinuse[next] {
        if next == m.top {
          FreeToTop(q, p, next, psize, x);
        } else if next == m.dv {
          assert q != m.dv;
          FreeAsVictim(q, p, next, m.dvsize + psize, next + m.dvsize, x, x);
        } else {
          var nsize := tags.size[next];
          UnlinkChunk(next, nsize, x);
          if q == m.dv {
            FreeAsVictim(q, p, next, psize + nsize, next + nsize, x, x + {next});
          } else {
            FreeToBin(q, p, next, psize + nsize, next + nsize, x, x + {next});
          }
        }
      } else {
        FreeToBin(q, p, next, psize, next, x, x);
      }
    }
  }
}
