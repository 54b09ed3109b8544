/**
 * Boundary tags: head words, previous-size footers and in-use bits of the chunks that tile
 * one segment, and the few ways in which malloc and free rewrite them.  The invariants are
 * the debug checks of the heap, stated once for all states.
 */
module Layout {
  type Addr = int

  const MIN_CHUNK_SIZE: nat := 32

  /** One segment: tag words in memory, and the chunks they describe (top is the last). */
  datatype Layout = Layout(
    size: map<Addr, nat>,
    pinuse: map<Addr, bool>,
    cinuse: map<Addr, bool>,
    foot: map<Addr, nat>,
    base: Addr,
    top: Addr,
    topsize: nat,
    chunks: set<Addr>)
  {
    function End(): Addr {
      top + topsize
    }
  }

  predicate HasTags(l: Layout, a: Addr) {
    a in l.size && a in l.pinuse && a in l.cinuse
  }

  /** next_chunk. */
  function Next(l: Layout, a: Addr): Addr
    requires a in l.size
  {
    a + l.size[a]
  }

  /** Every chunk but top is followed by a chunk whose pinuse bit tells its state. */
  predicate NextOk(l: Layout, a: Addr) {
    && HasTags(l, a)
    && (a != l.top ==>
        && l.size[a] >= MIN_CHUNK_SIZE
        && Next(l, a) in l.chunks && HasTags(l, Next(l, a))
        && l.pinuse[Next(l, a)] == l.cinuse[a]
        && (!l.cinuse[a] ==> Next(l, a) in l.foot && l.foot[Next(l, a)] == l.size[a]))
    && (a == l.top ==> l.size[a] == l.topsize > 0)
  }

  /** A free chunk is bordered by chunks in use. */
  predicate FreeOk(l: Layout, a: Addr)
    requires HasTags(l, a)
  {
    !l.cinuse[a] ==>
      && l.pinuse[a]
      && (a != l.top ==> Next(l, a) != l.top && Next(l, a) in l.cinuse && l.cinuse[Next(l, a)])
  }

  /** A clear pinuse bit makes the footer lead to the free chunk before. */
  predicate PrevOk(l: Layout, a: Addr)
    requires HasTags(l, a)
  {
    !l.pinuse[a] ==>
      && a in l.foot && a - l.foot[a] in l.chunks && HasTags(l, a - l.foot[a])
      && l.size[a - l.foot[a]] == l.foot[a] && !l.cinuse[a - l.foot[a]]
  }

  predicate ChunkOk(l: Layout, a: Addr) {
    && l.base <= a <= l.top
    && NextOk(l, a) && FreeOk(l, a) && PrevOk(l, a)
  }

  /** Chunks do not overlap. */
  predicate Apart(l: Layout, a: Addr, b: Addr) {
    a in l.chunks && b in l.chunks && a < b && a in l.size ==> Next(l, a) <= b
  }

  /** The first chunk, top, and the fake chunk behind top. */
  predicate Edges(l: Layout) {
    && l.base in l.chunks && l.top in l.chunks && l.base > 0
    && l.base in l.pinuse && l.pinuse[l.base]
    && l.top in l.cinuse && !l.cinuse[l.top]
    && l.End() in l.pinuse && !l.pinuse[l.End()]
  }

  /** The chunks tile the segment from base to the end of top. */
  ghost predicate Inv(l: Layout) {
    && Edges(l)
    && (forall a {:trigger ChunkOk(l, a)} :: a in l.chunks ==> ChunkOk(l, a))
    && (forall a, b {:trigger Apart(l, a, b)} :: Apart(l, a, b))
  }

  predicate Live(l: Layout, a: Addr) {
    a in l.chunks && a in l.cinuse && l.cinuse[a]
  }

  /** A free chunk other than top. */
  predicate Free(l: Layout, a: Addr) {
    a in l.chunks && a in l.cinuse && !l.cinuse[a] && a != l.top
  }

  // --------------------------------------------------------------------------
  // Rewriting tags
  // --------------------------------------------------------------------------

  /** set_inuse_and_pinuse on a whole free chunk. */
  function UseWhole(l: Layout, p: Addr): Layout
    requires p in l.size
  {
    Layout(
      l.size,
      l.pinuse[p := true][Next(l, p) := true],
      l.cinuse[p := true],
      l.foot, l.base, l.top, l.topsize, l.chunks)
  }

  lemma BeforeEnd(l: Layout, a: Addr)
    requires Inv(l) && a in l.chunks
    ensures l.base <= a <= l.top < l.End() && ChunkOk(l, a)
  {
    assert ChunkOk(l, a) && ChunkOk(l, l.top);
  }

  lemma UseWholeKeeps(l: Layout, p: Addr)
    requires Inv(l) && Free(l, p) && p in l.size
    ensures Inv(UseWhole(l, p))
  {
    var l', n := UseWhole(l, p), Next(l, p);
    BeforeEnd(l, p);
    BeforeEnd(l, n);
    BeforeEnd(l, l.base);
    assert l'.End() == l.End() && l.End() != n && l.End() != p;
    assert Edges(l');
    forall a | a in l'.chunks ensures ChunkOk(l', a) {
      UseWholeChunk(l, p, a);
    }
    forall a, b ensures Apart(l', a, b) { assert Apart(l, a, b); }
  }

  lemma UseWholeChunk(l: Layout, p: Addr, a: Addr)
    requires Inv(l) && Free(l, p) && p in l.size && a in l.chunks
    ensures ChunkOk(UseWhole(l, p), a)
  {
    var l', n := UseWhole(l, p), Next(l, p);
    assert ChunkOk(l, p) && ChunkOk(l, n) && ChunkOk(l, a);
    if a != p && a != l.top && Next(l, a) == n {
      SameNext(l, a, p);
    }
    if a != l.top && Next(l, a) == p {
      assert l.pinuse[p];
    }
  }

  /** Two chunks with the same next chunk are the same chunk. */
  lemma SameNext(l: Layout, a: Addr, b: Addr)
    requires Inv(l) && a in l.chunks && b in l.chunks && a != l.top && b != l.top
    requires a in l.size && b in l.size && Next(l, a) == Next(l, b)
    ensures a == b
  {
    assert ChunkOk(l, a) && ChunkOk(l, b);
    assert Apart(l, a, b) && Apart(l, b, a);
  }

  /** set_size_and_pinuse_of_inuse_chunk on the front, set_size_and_pinuse_of_free_chunk on the rest. */
  function Split(l: Layout, p: Addr, nb: nat): Layout
    requires p in l.size && nb <= l.size[p]
  {
    var r, rest := p + nb, l.size[p] - nb;
    Layout(
      l.size[p := nb][r := rest],
      l.pinuse[p := true][r := true],
      l.cinuse[p := true][r := false],
      l.foot[r + rest := rest],
      l.base, l.top, l.topsize, l.chunks + {r})
  }

  predicate CanSplit(l: Layout, p: Addr, nb: nat) {
    Free(l, p) && p in l.size && MIN_CHUNK_SIZE <= nb && nb + MIN_CHUNK_SIZE <= l.size[p]
  }

  lemma SplitKeeps(l: Layout, p: Addr, nb: nat)
    requires Inv(l) && CanSplit(l, p, nb)
    ensures Inv(Split(l, p, nb))
  {
    var l', r := Split(l, p, nb), p + nb;
    SplitEdges(l, p, nb);
    forall a | a in l'.chunks ensures ChunkOk(l', a) {
      if a == r {
        SplitRest(l, p, nb);
      } else {
        SplitChunk(l, p, nb, a);
      }
    }
    forall a, b ensures Apart(l', a, b) {
      SplitApart(l, p, nb, a, b);
    }
  }

  lemma SplitEdges(l: Layout, p: Addr, nb: nat)
    requires Inv(l) && CanSplit(l, p, nb)
    ensures Edges(Split(l, p, nb))
  {
    BeforeEnd(l, p);
    BeforeEnd(l, l.base);
    BeforeEnd(l, Next(l, p));
    NothingInside(l, p, p + nb);
    var l' := Split(l, p, nb);
    assert l'.End() == l.End() && l.End() != p + nb && l.End() != p;
  }

  lemma SplitApart(l: Layout, p: Addr, nb: nat, a: Addr, b: Addr)
    requires Inv(l) && CanSplit(l, p, nb)
    ensures Apart(Split(l, p, nb), a, b)
  {
    var l', r := Split(l, p, nb), p + nb;
    if a in l'.chunks && b in l'.chunks && a < b {
      assert Apart(l, a, b) && Apart(l, p, b) && Apart(l, a, p);
      NothingInside(l, p, r);
      if a != r {
        assert ChunkOk(l, a);
        if b == r && p < a {
          NothingInside(l, p, a);
        }
      }
    }
  }

  /** No chunk starts strictly inside another. */
  lemma NothingInside(l: Layout, p: Addr, r: Addr)
    requires Inv(l) && p in l.chunks && p in l.size && p < r < p + l.size[p]
    ensures r !in l.chunks
  {
    assert Apart(l, p, r);
  }

  lemma SplitRest(l: Layout, p: Addr, nb: nat)
    requires Inv(l) && CanSplit(l, p, nb)
    ensures ChunkOk(Split(l, p, nb), p + nb)
  {
    BeforeEnd(l, p);
    BeforeEnd(l, Next(l, p));
    NothingInside(l, p, p + nb);
  }

  lemma SplitChunk(l: Layout, p: Addr, nb: nat, a: Addr)
    requires Inv(l) && CanSplit(l, p, nb) && a in l.chunks
    ensures ChunkOk(Split(l, p, nb), a)
  {
    BeforeEnd(l, p);
    BeforeEnd(l, Next(l, p));
    BeforeEnd(l, a);
    NothingInside(l, p, p + nb);
    if a != p && a != l.top {
      assert Next(l, a) != p + nb;
      if Next(l, a) == Next(l, p) {
        SameNext(l, a, p);
      }
      if !l.pinuse[a] && a == Next(l, p) {
        SameNext(l, a - l.foot[a], p) ;
      }
    }
  }

  /** Carve `nb` bytes off the front of top. */
  function CarveTop(l: Layout, nb: nat): Layout
    requires nb <= l.topsize
  {
    var p, r, rest := l.top, l.top + nb, l.topsize - nb;
    Layout(
      l.size[r := rest][p := nb],
      l.pinuse[r := true][p := true],
      l.cinuse[r := false][p := true],
      l.foot,
      l.base, r, rest, l.chunks + {r})
  }

  lemma CarveTopKeeps(l: Layout, nb: nat)
    requires Inv(l) && MIN_CHUNK_SIZE <= nb < l.topsize
    ensures Inv(CarveTop(l, nb))
  {
    var l', r := CarveTop(l, nb), l.top + nb;
    BeforeEnd(l, l.top);
    BeforeEnd(l, l.base);
    assert l'.End() == l.End() && l.End() != r && l.End() != l.top;
    assert Edges(l');
    forall a | a in l'.chunks ensures ChunkOk(l', a) {
      CarveTopChunk(l, nb, a);
    }
    forall a, b ensures Apart(l', a, b) {
      CarveTopApart(l, nb, a, b);
    }
  }

  lemma CarveTopApart(l: Layout, nb: nat, a: Addr, b: Addr)
    requires Inv(l) && MIN_CHUNK_SIZE <= nb < l.topsize
    ensures Apart(CarveTop(l, nb), a, b)
  {
    assert Apart(l, a, b) && Apart(l, a, l.top);
    if a in l.chunks {
      BeforeEnd(l, a);
    }
    if b in l.chunks {
      BeforeEnd(l, b);
    }
  }

  lemma CarveTopChunk(l: Layout, nb: nat, a: Addr)
    requires Inv(l) && MIN_CHUNK_SIZE <= nb < l.topsize && a in CarveTop(l, nb).chunks
    ensures ChunkOk(CarveTop(l, nb), a)
  {
    var l', r := CarveTop(l, nb), l.top + nb;
    BeforeEnd(l, l.top);
    if a in l.chunks {
      BeforeEnd(l, a);
      if a != l.top {
        BeforeEnd(l, Next(l, a));
      }
    }
    assert NextOk(l', a) && FreeOk(l', a) && PrevOk(l', a);
  }

  /**
   * All chunks from `p` up to the chunk `e` in use become one free chunk:
   * set_free_with_pinuse after any coalescing.
   */
  function FreeRange(l: Layout, p: Addr, e: Addr): Layout
    requires p < e
  {
    Layout(
      l.size[p := e - p],
      l.pinuse[p := true][e := false],
      l.cinuse[p := false],
      l.foot[e := e - p],
      l.base, l.top, l.topsize, set a | a in l.chunks && (a <= p || e <= a))
  }

  predicate CanFree(l: Layout, p: Addr, e: Addr) {
    && p in l.chunks && e in l.chunks && p < e && e != l.top
    && p in l.pinuse && l.pinuse[p] && e in l.cinuse && l.cinuse[e]
  }

  lemma FreeRangeKeeps(l: Layout, p: Addr, e: Addr)
    requires Inv(l) && CanFree(l, p, e)
    ensures Inv(FreeRange(l, p, e))
  {
    var l' := FreeRange(l, p, e);
    BeforeEnd(l, p);
    BeforeEnd(l, e);
    BeforeEnd(l, l.base);
    BeforeEnd(l, l.top);
    assert l'.End() == l.End() && l.End() != p && l.End() != e;
    assert Edges(l');
    forall a | a in l'.chunks ensures ChunkOk(l', a) {
      FreeRangeChunk(l, p, e, a);
    }
    forall a, b ensures Apart(l', a, b) {
      assert Apart(l, a, b);
    }
  }

  lemma FreeRangeChunk(l: Layout, p: Addr, e: Addr, a: Addr)
    requires Inv(l) && CanFree(l, p, e) && a in l.chunks && (a <= p || e <= a)
    ensures ChunkOk(FreeRange(l, p, e), a)
  {
    BeforeEnd(l, p);
    BeforeEnd(l, e);
    BeforeEnd(l, a);
    assert Apart(l, p, e);
    assert Apart(l, a, p) && Apart(l, a, e) && Apart(l, e, a);
    if a != l.top && a != p {
      BeforeEnd(l, Next(l, a));
    }
    if !l.pinuse[a] && a != e {
      var f := a - l.foot[a];
      BeforeEnd(l, f);
      assert Apart(l, f, e) && Apart(l, p, f);
      assert f != p;
    }
  }

  /** All chunks from `p` on become top. */
  function FreeIntoTop(l: Layout, p: Addr): Layout
    requires p < l.End()
  {
    var tsize := l.End() - p;
    Layout(
      l.size[p := tsize],
      l.pinuse[p := true],
      l.cinuse[p := false],
      l.foot,
      l.base, p, tsize, set a | a in l.chunks && a <= p)
  }

  lemma FreeIntoTopKeeps(l: Layout, p: Addr)
    requires Inv(l) && p in l.chunks && p in l.pinuse && l.pinuse[p]
    ensures p < l.End() && Inv(FreeIntoTop(l, p))
  {
    BeforeEnd(l, p);
    BeforeEnd(l, l.base);
    var l' := FreeIntoTop(l, p);
    assert l'.End() == l.End() && l.End() != p;
    assert Edges(l');
    forall a | a in l'.chunks ensures ChunkOk(l', a) {
      FreeIntoTopChunk(l, p, a);
    }
    forall a, b ensures Apart(l', a, b) {
      assert Apart(l, a, b);
    }
  }

  lemma FreeIntoTopChunk(l: Layout, p: Addr, a: Addr)
    requires Inv(l) && p in l.chunks && p in l.pinuse && l.pinuse[p] && a in l.chunks && a <= p < l.End()
    ensures ChunkOk(FreeIntoTop(l, p), a)
  {
    BeforeEnd(l, p);
    BeforeEnd(l, a);
    assert Apart(l, a, p);
    if a != p {
      BeforeEnd(l, Next(l, a));
    }
    if !l.pinuse[a] {
      var f := a - l.foot[a];
      BeforeEnd(l, f);
      assert Apart(l, f, p);
    }
    var l' := FreeIntoTop(l, p);
    assert NextOk(l', a) && FreeOk(l', a) && PrevOk(l', a);
  }

  /** init_top after the segment grew by `n` bytes: a new fake chunk is set behind top. */
  function GrowTop(l: Layout, n: nat): Layout {
    var tsize := l.topsize + n;
    Layout(
      l.size[l.top := tsize],
      l.pinuse[l.top := true][l.top + tsize := false],
      l.cinuse[l.top := false],
      l.foot,
      l.base, l.top, tsize, l.chunks)
  }

  lemma GrowTopKeeps(l: Layout, n: nat)
    requires Inv(l)
    ensures Inv(GrowTop(l, n))
  {
    var l' := GrowTop(l, n);
    BeforeEnd(l, l.top);
    BeforeEnd(l, l.base);
    assert Edges(l');
    forall a | a in l'.chunks ensures ChunkOk(l', a) {
      BeforeEnd(l, a);
      if a != l.top {
        BeforeEnd(l, Next(l, a));
      }
      assert NextOk(l', a) && FreeOk(l', a) && PrevOk(l', a);
    }
    forall a, b ensures Apart(l', a, b) {
      assert Apart(l, a, b);
      if b in l.chunks {
        BeforeEnd(l, b);
      }
    }
  }

  /** One segment with nothing allocated. */
  function Initial(base: Addr, topsize: nat): Layout {
    Layout(
      map[base := topsize],
      map[base := true, base + topsize := false],
      map[base := false],
      map[],
      base, base, topsize, {base})
  }

  lemma InitialOk(base: Addr, topsize: nat)
    requires base > 0 && topsize > 0
    ensures Inv(Initial(base, topsize))
  {
    var l := Initial(base, topsize);
    assert l.End() == base + topsize != base;
    assert Edges(l);
    forall a | a in l.chunks ensures ChunkOk(l, a) {
      assert NextOk(l, a) && FreeOk(l, a) && PrevOk(l, a);
    }
  }

  // --------------------------------------------------------------------------
  // Alignment
  // --------------------------------------------------------------------------

  ghost predicate Aligned(l: Layout) {
    l.End() % 8 == 0 && forall a :: a in l.chunks ==> a % 8 == 0
  }

  lemma SizesAligned(l: Layout, a: Addr)
    requires Inv(l) && Aligned(l) && a in l.chunks
    ensures a in l.size && l.size[a] % 8 == 0
  {
    assert ChunkOk(l, a);
    if a != l.top {
      assert Next(l, a) % 8 == 0;
    }
  }
}
