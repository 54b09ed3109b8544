/** Allocations of whole chunks, as a client of the chunk layer. */
module Huge {
  import opened Basics
  import opened Extents
  import opened Align
  import opened ChunkPool

  /** CHUNK_CEILING on 64-bit sizes: zero when the rounding wraps. */
  function ChunkCeiling(size: nat, chunksize: nat): nat
    requires chunksize > 0
  {
    AlignUp(size, chunksize) % TWO_64
  }

  /** A non-zero ceiling is the least multiple of the chunk size that holds the request. */
  lemma CeilingHolds(size: nat, chunksize: nat, y: nat)
    requires 0 < chunksize && Multiple(TWO_64, chunksize) && size < TWO_64
    ensures ChunkCeiling(size, chunksize) != 0 ==>
      && size <= ChunkCeiling(size, chunksize) && Multiple(ChunkCeiling(size, chunksize), chunksize)
      && (size <= y && Multiple(y, chunksize) ==> ChunkCeiling(size, chunksize) <= y)
    ensures ChunkCeiling(size, chunksize) == 0 <==> size == 0 || TWO_64 - chunksize < size
  {
    AlignUpIsLeast(size, chunksize, y);
    AlignUpIsLeast(size, chunksize, TWO_64);
    if AlignUp(size, chunksize) < TWO_64 {
      MultipleGap(AlignUp(size, chunksize), TWO_64, chunksize);
    }
    MultipleIs(0, chunksize);
    MultipleSum(TWO_64, chunksize, chunksize) by { MultipleIs(1, chunksize); }
    AlignUpIsLeast(size, chunksize, TWO_64 - chunksize);
    AlignUpIsLeast(size, chunksize, 0);
  }

  class Huge {
    const chunks: Chunks
    /** The tree of huge allocations, by address. */
    var tree: map<nat, nat>

    ghost predicate Valid()
      reads this, chunks
    {
      && chunks.Valid() && Multiple(TWO_64, chunks.chunksize)
      && forall a :: a in tree ==> Ext(a, tree[a]) in chunks.owned
    }

    constructor (chunks: Chunks)
      requires chunks.Valid() && Multiple(TWO_64, chunks.chunksize)
      ensures Valid() && this.chunks == chunks && tree == map[]
    {
      this.chunks := chunks;
      tree := map[];
    }

    /** Huge blocks never overlap each other, nor anything recorded for reuse. */
    lemma BlocksApart(a: nat, b: nat, n: Node)
      requires Valid() && a in tree && b in tree
      ensures a != b ==> Apart(Ext(a, tree[a]), Ext(b, tree[b]))
      ensures n in View(chunks.t) ==> Apart(View(chunks.t)[n], Ext(a, tree[a]))
    {
      assert RangesApart(Ext(a, tree[a]), Ext(b, tree[b]));
    }

    /** At most one range in use begins at an address. */
    lemma SameStart(r: Ext, q: Ext)
      requires chunks.Valid() && r in chunks.owned && q in chunks.owned && r.addr == q.addr
      ensures r == q
    {
      assert RangesApart(r, q);
    }

    /** huge_palloc: `node` says whether a node for the tree could be allocated. */
    method Palloc(size: nat, alignment: nat, node: bool, trailNode: Option<Node>, xnode: Option<Node>, mapped: Option<nat>,
                  registered: bool, unmapped: bool, rnode: Option<Node>) returns (ret: Option<nat>)
      requires Valid() && size < TWO_64 && 0 < alignment < TWO_64 && Multiple(alignment, chunks.chunksize)
      requires (trailNode.Some? ==> trailNode.value !in View(chunks.t)) && (xnode.Some? ==> xnode.value !in View(chunks.t))
      modifies this, chunks
      ensures Valid()
      ensures ret.None? ==> tree == old(tree)
      ensures ret.Some? <==>
        var csize := ChunkCeiling(size, chunks.chunksize);
        csize != 0 && node && old(chunks.Obtains(csize, alignment, false, trailNode.Some?, mapped, registered))
      ensures ret.Some? ==> ret.value !in old(tree) && tree == old(tree)[ret.value := ChunkCeiling(size, chunks.chunksize)]
      ensures ret.Some? ==> Multiple(ret.value, alignment) && 0 < size <= tree[ret.value]
      ensures ret.Some? ==> Ext(ret.value, tree[ret.value]) in chunks.owned && Ext(ret.value, tree[ret.value]) !in old(chunks.owned)
      ensures old(chunks.owned) <= chunks.owned && (Coalesced(old(View(chunks.t))) ==> Coalesced(View(chunks.t)))
    {
      var csize := ChunkCeiling(size, chunks.chunksize);
      CeilingHolds(size, chunks.chunksize, 0);
      if csize == 0 || !node {
        return None;
      }
      ret := chunks.Alloc(csize, alignment, false, trailNode, xnode, mapped, registered, unmapped, rnode);
      if ret.Some? {
        if ret.value in tree {
          SameStart(Ext(ret.value, csize), Ext(ret.value, tree[ret.value]));
        }
        tree := tree[ret.value := csize];
      }
    }

    /** huge_salloc. */
    method Salloc(ptr: nat) returns (size: nat)
      requires Valid() && ptr in tree
      ensures Ext(ptr, size) in chunks.owned && forall r :: r in chunks.owned && r.addr == ptr ==> r.size == size
    {
      forall r | r in chunks.owned && r.addr == ptr ensures r.size == tree[ptr] {
        SameStart(r, Ext(ptr, tree[ptr]));
      }
      size := tree[ptr];
    }

    /** huge_dalloc: the whole block goes back and the other blocks are untouched. */
    method Dalloc(ptr: nat, unmap: bool, unmapped: bool, xnode: Option<Node>)
      requires Valid() && ptr in tree && (xnode.Some? ==> xnode.value !in View(chunks.t))
      modifies this, chunks
      ensures Valid() && tree == old(tree) - {ptr}
      ensures var r := Ext(ptr, old(tree)[ptr]);
        chunks.owned == old(chunks.owned) - {r} || ((!unmap || xnode.None?) && chunks.owned == old(chunks.owned))
      ensures Coalesced(old(View(chunks.t))) ==> Coalesced(View(chunks.t))
    {
      var size := tree[ptr];
      tree := tree - {ptr};
      var _ := chunks.Dealloc(Ext(ptr, size), unmap, unmapped, xnode);
    }
  }
}
