/**
 * The heap's debug checks as they are run: do_check_malloc_state and what it calls.  Each
 * check reads only tag words, links and maps; on every valid heap every check passes.
 */
module HeapCheck {
  import opened Basics
  import opened SizeBits
  import opened BinMap
  import opened Layout
  import opened FreeChunks
  import opened Heap
  import Trie
  import TC = TreeChains
  import R = Ring
  import SB = SmallBins
  import TB = TreeBins

  // --------------------------------------------------------------------------
  // The checks of one chunk
  // --------------------------------------------------------------------------

  /** is_inuse: free chunks have exactly the pinuse bit. */
  predicate Inuse(t: Tags, p: Addr) {
    p in t.cinuse && p in t.pinuse && (t.cinuse[p] || !t.pinuse[p])
  }

  predicate NextPinuse(t: Tags, p: Addr) {
    p in t.size && p + t.size[p] in t.pinuse && t.pinuse[p + t.size[p]]
  }

  /** do_check_any_chunk: aligned, and not below the segment. */
  predicate AnyChunk(m: Fields, p: Addr) {
    (p + 16) % 8 == 0 && m.base <= p
  }

  /** do_check_inuse_chunk. */
  predicate InuseChunk(t: Tags, m: Fields, p: Addr) {
    && AnyChunk(m, p) && Inuse(t, p) && NextPinuse(t, p)
    && (t.pinuse[p] || (p in t.foot && p - t.foot[p] in t.size && p - t.foot[p] + t.size[p - t.foot[p]] == p))
  }

  /** p->fd->bk == p and p->bk->fd == p. */
  predicate LinkedBothWays(fd: map<Addr, Addr>, bk: map<Addr, Addr>, p: Addr) {
    && p in fd && fd[p] in bk && bk[fd[p]] == p
    && p in bk && bk[p] in fd && fd[bk[p]] == p
  }

  /** do_check_free_chunk. */
  predicate FreeChunk(h: Heap, p: Addr)
    reads h, h.small, h.large
  {
    var t, m := h.tags, h.m;
    && AnyChunk(m, p) && !Inuse(t, p) && p in t.size && !NextPinuse(t, p)
    && (p != m.dv && p != m.top ==>
        var s, next := t.size[p], p + t.size[p];
        && s % 8 == 0 && next in t.foot && t.foot[next] == s && p in t.pinuse && t.pinuse[p]
        && (next == m.top || Inuse(t, next))
        && (if IsSmall(s) then LinkedBothWays(h.small.w.fd, h.small.w.bk, p) else LinkedBothWays(h.large.w.fd, h.large.w.bk, p)))
  }

  lemma InuseChunkHolds(h: Heap, p: Addr)
    requires h.Valid() && Live(h.L(), p)
    ensures InuseChunk(h.tags, h.m, p)
  {
    var l := h.L();
    assert ChunkOk(l, p);
  }

  lemma FreeChunkHolds(h: Heap, p: Addr)
    requires h.Valid() && Free(h.L(), p)
    ensures FreeChunk(h, p)
  {
    var l := h.L();
    assert ChunkOk(l, p);
    SizesAligned(l, p);
    if p != h.m.dv {
      assert Kept(h.B(), p);
      assert KeptOk(l, h.B(), p);
      if p in h.small.Contents() {
        SmallLinked(h.small, p);
      } else {
        LargeLinked(h.large, p);
      }
    }
  }

  lemma RingLinked(fd: map<Addr, Addr>, bk: map<Addr, Addr>, s: seq<Addr>, i: nat)
    requires R.IsRing(fd, bk, s) && i < |s|
    ensures LinkedBothWays(fd, bk, s[i])
  {
    assert R.Linked(fd, bk, s, i) && R.Linked(fd, bk, s, R.Next(i, |s|)) && R.Linked(fd, bk, s, R.Prev(i, |s|));
  }

  lemma SmallLinked(b: SB.SmallBins, p: Addr)
    requires b.Valid() && p in b.Contents()
    ensures LinkedBothWays(b.w.fd, b.w.bk, p)
  {
    var k := SB.Place(b.smallmap, b.w, b.g, p);
    var i := b.g.size[p] / 8;
    assert SB.BinOk(b.smallmap, b.w, b.g, i);
    RingLinked(b.w.fd, b.w.bk, [SB.Header(i)] + b.g.lists[i], k + 1);
  }

  lemma LargeLinked(b: TB.TreeBins, p: Addr)
    requires b.Valid() && p in b.Contents()
    ensures LinkedBothWays(b.w.fd, b.w.bk, p)
  {
    assert TC.MemberOk(b.Tree(), b.Chain(), p);
    var s := b.g.ring[b.g.rep[p]];
    assert TC.RingOk(b.Tree(), b.Chain(), b.g.rep[p]);
    var k :| 0 <= k < |s| && s[k] == p;
    RingLinked(b.w.fd, b.w.bk, s, k);
  }

  // --------------------------------------------------------------------------
  // The walks
  // --------------------------------------------------------------------------

  /** bin_find. */
  method BinFind(h: Heap, x: Addr) returns (found: bool)
    requires h.Valid() && x in h.chunks
    ensures found <==> x in h.small.Contents() || x in h.large.Contents()
  {
    BeforeEnd(h.L(), x);
    BeforeEnd(h.L(), h.m.base);
    SizesAligned(h.L(), x);
    SizeBounded(h, x);
    assert KeptOk(h.L(), h.B(), x);
    var s := h.tags.size[x];
    if IsSmall(s) {
      found := h.small.Find(x, s);
    } else {
      h.HeadsAgree({});
      found := h.large.Find(h.tags.size, x, s);
    }
  }

  lemma SizeBounded(h: Heap, x: Addr)
    requires h.Valid() && x in h.chunks
    ensures x in h.tags.size && h.tags.size[x] < TWO_40
  {
    BeforeEnd(h.L(), x);
    if x != h.m.top {
      BeforeEnd(h.L(), Next(h.L(), x));
    }
  }

  /** The chunks below an address. */
  ghost function Below(chunks: set<Addr>, q: Addr): set<Addr> {
    set a | a in chunks && a < q
  }

  lemma NextBelow(l: Layout, q: Addr)
    requires Inv(l) && q in l.chunks && q != l.top && q in l.size
    ensures Next(l, q) in l.chunks && q < Next(l, q) <= l.top && Below(l.chunks, Next(l, q)) == Below(l.chunks, q) + {q}
  {
    assert ChunkOk(l, q) && ChunkOk(l, Next(l, q));
    forall a | a in l.chunks ensures a < Next(l, q) <==> a < q || a == q {
      assert Apart(l, q, a);
    }
  }

  /**
   * traverse_and_check: walk from chunk to chunk and check each, in use or free.  The walk
   * meets every chunk but top once, and what it adds up is the size of the segment.
   */
  method TraverseAndCheck(h: Heap) returns (sum: nat, ghost seen: set<Addr>)
    requires h.Valid()
    ensures sum == h.m.segsize && seen == h.chunks - {h.m.top}
  {
    ghost var l := h.L();
    sum := h.m.topsize + TOP_FOOT_SIZE;
    seen := {};
    var q := h.m.base;
    BeforeEnd(l, q);
    NoneBelow(l);
    assert h.tags.pinuse[q];
    var last := 0;
    while q != h.m.top
      invariant q in h.chunks && q <= h.m.top && h.m.base <= q < h.m.base + h.m.segsize
      invariant sum == h.m.topsize + TOP_FOOT_SIZE + (q - h.m.base) && seen == Below(h.chunks, q)
      invariant last != 0 ==> last in h.chunks && last in h.tags.size && last != h.m.top && Next(l, last) == q
      decreases h.m.top - q
    {
      CheckOne(h, q, last);
      BeforeEnd(l, q);
      NextBelow(l, q);
      BeforeEnd(l, Next(l, q));
      seen := seen + {q};
      sum := sum + h.tags.size[q];
      last := q;
      q := q + h.tags.size[q];
    }
    TopIsLast(l);
  }

  /** The body of the walk. */
  method CheckOne(h: Heap, q: Addr, last: Addr)
    requires h.Valid() && q in h.chunks && q != h.m.top
    requires last != 0 ==> last in h.chunks && last in h.tags.size && last != h.m.top && Next(h.L(), last) == q
  {
    ghost var l := h.L();
    assert ChunkOk(l, q);
    var found := BinFind(h, q);
    assert KeptOk(l, h.B(), q);
    if Inuse(h.tags, q) {
      assert h.tags.cinuse[q];
      assert !found;
      InuseChunkHolds(h, q);
      assert InuseChunk(h.tags, h.m, q);
    } else {
      assert Free(l, q);
      assert Kept(h.B(), q);
      assert q == h.m.dv || found;
      if last != 0 {
        assert ChunkOk(l, last);
        assert Inuse(h.tags, last);
      }
      FreeChunkHolds(h, q);
      assert FreeChunk(h, q);
    }
  }

  lemma NoneBelow(l: Layout)
    requires Inv(l)
    ensures Below(l.chunks, l.base) == {}
  {
    forall a | a in l.chunks ensures l.base <= a { assert ChunkOk(l, a); }
  }

  lemma TopIsLast(l: Layout)
    requires Inv(l)
    ensures Below(l.chunks, l.top) == l.chunks - {l.top}
  {
    forall a | a in l.chunks ensures a <= l.top { assert ChunkOk(l, a); }
  }

  // --------------------------------------------------------------------------
  // The bins
  // --------------------------------------------------------------------------

  /** do_check_smallbin: backward around the ring; exactly the chunks of the bin's size are met. */
  method CheckSmallBin(h: Heap, i: nat) returns (ghost seen: set<Addr>)
    requires h.Valid() && i < SB.NSMALLBINS
    ensures forall x :: x in seen <==> x in h.small.Contents() && h.small.Contents()[x] == 8 * i
  {
    ghost var l := h.small.g.lists[i];
    assert SB.BinOk(h.small.smallmap, h.small.w, h.small.g, i);
    seen := {};
    var b := SB.Header(i);
    EmptyHeader(h.small, i);
    assert b in h.small.w.bk && h.small.w.bk[b] == b ==> !Marked(h.small.smallmap, i);
    if Marked(h.small.smallmap, i) {
      ghost var s: seq<Addr>, k: nat := [b] + l, |l|;
      assert R.Linked(h.small.w.fd, h.small.w.bk, s, 0);
      var p := h.small.w.bk[b];
      while p != b
        invariant k < |s| && p == s[k] && forall x :: x in seen <==> x in s[k + 1..]
        decreases k
      {
        assert k > 0 && p == l[k - 1];
        CheckSmallChunk(h, i, p);
        assert R.Linked(h.small.w.fd, h.small.w.bk, s, k);
        assert s[k..] == [p] + s[k + 1..];
        CheckNeighbour(h, i, h.small.w.bk[p]);
        assert h.small.w.bk[p] == b || h.tags.size[h.small.w.bk[p]] == h.tags.size[p];
        seen := seen + {p};
        p := h.small.w.bk[p];
        k := k - 1;
      }
      assert k == 0 && s[1..] == l by { assert R.Distinct(s); }
    }
  }

  /** A header that is linked to itself belongs to an unmarked bin. */
  lemma EmptyHeader(b: SB.SmallBins, i: nat)
    requires b.Valid() && i < SB.NSMALLBINS
    ensures var e := SB.Header(i); e in b.w.bk && b.w.bk[e] == e ==> !Marked(b.smallmap, i)
  {
    var l, e := b.g.lists[i], SB.Header(i);
    assert SB.BinOk(b.smallmap, b.w, b.g, i);
    if l != [] {
      assert R.Linked(b.w.fd, b.w.bk, [e] + l, 0);
      assert ([e] + l)[0] != ([e] + l)[|l|];
    }
  }

  /** What stands next in the ring of a small bin is its header or a chunk of the same size. */
  lemma CheckNeighbour(h: Heap, i: nat, q: Addr)
    requires h.Valid() && i < SB.NSMALLBINS && q in [SB.Header(i)] + h.small.g.lists[i]
    ensures q == SB.Header(i) || (q in h.tags.size && h.tags.size[q] == 8 * i)
  {
    assert SB.BinOk(h.small.smallmap, h.small.w, h.small.g, i);
    assert KeptOk(h.L(), h.B(), q);
  }

  method CheckSmallChunk(h: Heap, i: nat, p: Addr)
    requires h.Valid() && p in h.small.Contents() && h.small.Contents()[p] == 8 * i
    ensures p in h.tags.size && h.tags.size[p] == 8 * i
  {
    assert KeptOk(h.L(), h.B(), p);
    FreeChunkHolds(h, p);
    assert FreeChunk(h, p);
    var s := h.tags.size[p];
    assert s / 8 == i;
    var q := p + s;
    assert ChunkOk(h.L(), p);
    InuseChunkHolds(h, q);
    assert InuseChunk(h.tags, h.m, q);
  }

  /** do_check_tree on one node and its chain. */
  method CheckNode(h: Heap, t: Addr)
    requires h.Valid() && t in h.large.g.level
  {
    ghost var tree, chain := h.large.Tree(), h.large.Chain();
    assert Trie.NodeOk(tree, t);
    TC.NodeIsOwnRep(tree, chain, t);
    Trie.NodeBin(tree, t);
    h.HeadsAgree({});
    var w, size := h.large.w, h.tags.size[t];
    assert w.index[t] == TreeIndex(size);
    assert size >= 0x100 && size >= MinSize(w.index[t]);
    assert w.index[t] == NTREEBINS - 1 || size < MinSize(w.index[t] + 1);
    assert TC.RingOk(tree, chain, t);
    ghost var s, k := h.large.g.ring[t], 0;
    var u, head := t, 0;
    while true
      invariant k < |s| && u == s[k] && (k > 0 ==> head == t) && (k == 0 ==> head == 0)
      decreases |s| - k
    {
      CheckMember(h, t, u);
      assert w.parent[u] != 0 ==> k == 0 by { MemberParent(h.large, t, k); }
      if w.parent[u] != 0 {
        assert head == 0;
        head := u;
      }
      assert k == 0 ==> w.parent[u] != 0 by { MemberParent(h.large, t, k); }
      assert R.Linked(w.fd, w.bk, s, k);
      u := w.fd[u];
      if u == t {
        assert head != 0;
        return;
      }
      k := k + 1;
    }
  }

  /** Only the tree node of a chain has a parent. */
  lemma MemberParent(b: TB.TreeBins, t: Addr, k: nat)
    requires b.Valid() && t in b.g.level && t in b.g.ring && k < |b.g.ring[t]|
    ensures b.g.ring[t][k] in b.w.parent && (b.w.parent[b.g.ring[t][k]] != 0 <==> k == 0)
  {
    var s := b.g.ring[t];
    assert TC.RingOk(b.Tree(), b.Chain(), t);
    assert s[k] in s;
    TC.NodeIsOwnRep(b.Tree(), b.Chain(), t);
    assert s[k] in b.g.rep && s[k] in b.g.size;
    TB.ParentTells(b.Tree(), b.Chain(), s[k]);
  }

  method CheckMember(h: Heap, t: Addr, u: Addr)
    requires h.Valid() && t in h.large.g.level && t in h.large.g.ring && u in h.large.g.ring[t]
    ensures u in h.large.w.parent && u in h.large.Contents()
  {
    ghost var tree, chain := h.large.Tree(), h.large.Chain();
    assert TC.RingOk(tree, chain, t);
    assert TC.MemberOk(tree, chain, u) && TC.MemberOk(tree, chain, t);
    assert KeptOk(h.L(), h.B(), u) && KeptOk(h.L(), h.B(), t);
    FreeChunkHolds(h, u);
    var w, tags := h.large.w, h.tags;
    assert AnyChunk(h.m, u) && w.index[u] == w.index[t] && tags.size[u] == tags.size[t];
    assert !Inuse(tags, u) && !NextPinuse(tags, u) && LinkedBothWays(w.fd, w.bk, u);
    TB.ParentTells(tree, chain, u);
    if w.parent[u] == 0 {
      assert w.child0[u] == 0 && w.child1[u] == 0;
    } else {
      CheckLinks(h, u);
    }
  }

  method CheckLinks(h: Heap, u: Addr)
    requires h.Valid() && u in h.large.g.level
  {
    ghost var tree := h.large.Tree();
    assert Trie.NodeOk(tree, u);
    Trie.NodeBin(tree, u);
    h.HeadsAgree({});
    TC.NodeIsOwnRep(tree, h.large.Chain(), u);
    TB.NotOwnParent(tree, u);
    var w := h.large.w;
    var p := w.parent[u];
    assert p != u;
    assert if p < 0 then w.roots[-1 - p] == u else w.child0[p] == u || w.child1[p] == u;
    assert w.child0[u] != 0 ==> w.parent[w.child0[u]] == u && w.child0[u] != u;
    assert w.child1[u] != 0 ==> w.parent[w.child1[u]] == u && w.child1[u] != u;
    if w.child0[u] != 0 && w.child1[u] != 0 {
      TC.NodeIsOwnRep(tree, h.large.Chain(), w.child0[u]);
      TC.NodeIsOwnRep(tree, h.large.Chain(), w.child1[u]);
      ChildrenOrdered(tree, u);
      assert h.tags.size[w.child0[u]] < h.tags.size[w.child1[u]];
    }
  }

  lemma ChildrenOrdered(tree: Trie.Trie, u: Addr)
    requires Trie.Inv(tree) && u in tree.level && tree.HasFields(u) && tree.child0[u] != 0 && tree.child1[u] != 0
    ensures tree.child0[u] in tree.size && tree.child1[u] in tree.size && tree.size[tree.child0[u]] < tree.size[tree.child1[u]]
  {
    Trie.ChildUnder(tree, u, 0);
    Trie.ChildUnder(tree, u, 1);
    assert Trie.NodeOk(tree, tree.child0[u]) && Trie.NodeOk(tree, tree.child1[u]);
    Trie.LeftBelowRight(tree, u, tree.child0[u], tree.child1[u]);
  }

  /** do_check_tree: the node and its subtrees, left to right. */
  method CheckTree(h: Heap, t: Addr)
    requires h.Valid() && t in h.large.g.level
    decreases h.large.g.level[t]
  {
    CheckNode(h, t);
    ghost var tree := h.large.Tree();
    assert Trie.NodeOk(tree, t);
    if h.large.w.child0[t] != 0 {
      Trie.ChildUnder(tree, t, 0);
      CheckTree(h, h.large.w.child0[t]);
    }
    if h.large.w.child1[t] != 0 {
      Trie.ChildUnder(tree, t, 1);
      CheckTree(h, h.large.w.child1[t]);
    }
  }

  /** do_check_malloc_state passes on every valid heap, and the total is the footprint. */
  method CheckMallocState(h: Heap) returns (total: nat)
    requires h.Valid()
    ensures total == h.m.footprint <= h.m.maxFootprint
  {
    for i := 0 to SB.NSMALLBINS {
      var _ := CheckSmallBin(h, i);
    }
    for i := 0 to NTREEBINS {
      var t := h.large.w.roots[i];
      if t != 0 {
        assert Marked(h.large.treemap, i);
        assert Trie.RootOk(h.large.Tree(), i);
        CheckTree(h, t);
      } else {
        assert !Marked(h.large.treemap, i);
      }
    }
    CheckVictimAndTop(h);
    ghost var seen;
    total, seen := TraverseAndCheck(h);
  }

  method CheckVictimAndTop(h: Heap)
    requires h.Valid()
  {
    ghost var l := h.L();
    var m, t := h.m, h.tags;
    if m.dvsize != 0 {
      h.InHand({}, m.dv);
      BeforeEnd(l, m.dv);
      assert AnyChunk(m, m.dv) && m.dvsize == t.size[m.dv] && m.dvsize >= MIN_CHUNK_SIZE;
      var found := BinFind(h, m.dv);
      assert !found;
    }
    BeforeEnd(l, m.top);
    assert AnyChunk(m, m.top) && t.size[m.top] == m.topsize && m.topsize > 0 && t.pinuse[m.top];
    assert m.topsize == m.base + m.segsize - m.top - TOP_FOOT_SIZE && !t.pinuse[m.top + m.topsize];
    assert KeptOk(l, h.B(), m.top);
    var found := BinFind(h, m.top);
    assert !found;
  }
}
