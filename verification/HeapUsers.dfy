/** Any use of the heap by callers that free only what they were given. */
module HeapUsers {
  import opened Basics
  import opened Traces
  import opened SizeBits
  import opened Layout
  import opened FreeChunks
  import opened Heap

  datatype Request = Malloc(bytes: nat, more: bool) | Free(mem: Addr)

  /** The blocks handed out, the chunks and the fields of the heap. */
  datatype World = World(live: map<Addr, nat>, l: Layout, b: Binned, m: Fields)

  /** A request the model serves: an address space of 2^40 bytes, and blocks that were handed out. */
  predicate Legal(w: World, e: Request) {
    match e
    case Malloc(bytes, more) => bytes < TWO_64 && (more ==> w.m.segsize + SystemSize(ChunkSizeFor(bytes)) < TWO_40)
    case Free(mem) => mem in w.live
  }

  /** A block at `mem` that was not in use, tight around the request and from a chunk chosen as promised. */
  ghost predicate HandsOut(w: World, w': World, bytes: nat, mem: Addr) {
    && mem % 8 == 0 && mem !in w.live && w'.live == w.live[mem := bytes]
    && Served(w.l, w'.l, mem - 16, ChunkSizeFor(bytes)) && WellChosen(w.l, w.b, mem - 16, ChunkSizeFor(bytes))
  }

  /** Nothing has changed; no free chunk and not the top is large enough, and the segment does not grow. */
  ghost predicate Refuses(w: World, w': World, bytes: nat, more: bool) {
    var nb := ChunkSizeFor(bytes);
    && w'.live == w.live && w'.l == w.l && w'.b == w.b && w.l.topsize <= nb
    && NoneFits(w.l, nb)
    && (more ==> SystemSize(nb) <= nb || w.m.OverLimit(SystemSize(nb)))
  }

  /** What a request does to blocks and chunks. */
  ghost predicate Goes(w: World, w': World, e: Request) {
    if !Legal(w, e) then w' == w else
    match e
    case Malloc(bytes, more) => Refuses(w, w', bytes, more) || exists mem :: HandsOut(w, w', bytes, mem)
    case Free(mem) => w'.live == w.live - {mem} && Freed(w.l, w'.l, mem - 16)
  }

  class Users {
    const heap: Heap
    /** The blocks handed out, with the bytes that were asked for. */
    var live: map<Addr, nat>

    ghost predicate Valid()
      reads this, heap, heap.small, heap.large
    {
      && heap.Valid()
      && (forall p {:trigger Live(heap.L(), p)} :: Live(heap.L(), p) <==> p + 16 in live)
      && (forall mem :: mem in live ==> Fits(heap.L(), mem, live[mem]))
    }

    ghost function W(): World
      reads this, heap, heap.small, heap.large
    {
      World(live, heap.L(), heap.B(), heap.m)
    }

    /** The block's chunk is in use, large enough and not larger than need be. */
    ghost predicate Fits(l: Layout, mem: Addr, bytes: nat) {
      && mem % 8 == 0 && Live(l, mem - 16) && mem - 16 in l.size
      && ChunkSizeFor(bytes) <= l.size[mem - 16] < ChunkSizeFor(bytes) + MIN_CHUNK_SIZE
    }

    constructor (base: Addr, segsize: nat, footprintLimit: nat)
      requires base > 0 && base % 8 == 0 && segsize % 8 == 0 && TOP_FOOT_SIZE < segsize < TWO_40
      ensures Valid() && live == map[] && fresh(heap) && fresh(heap.small) && fresh(heap.large)
    {
      heap := new Heap(base, segsize, footprintLimit);
      live := map[];
    }

    /** The bytes asked for never overlap those of another block. */
    lemma BlocksApart(a: Addr, b: Addr)
      requires Valid() && a in live && b in live && a != b
      ensures live[a] < MAX_REQUEST && (a + live[a] <= b || b + live[b] <= a)
    {
      var l := heap.L();
      assert Live(l, a - 16) && Live(l, b - 16);
      LiveDisjoint(l, a - 16, b - 16);
      assert Fits(l, a, live[a]) && Fits(l, b, live[b]);
      BeforeEnd(l, a - 16);
      BeforeEnd(l, b - 16);
      BeforeEnd(l, Next(l, a - 16));
      BeforeEnd(l, Next(l, b - 16));
    }

    /** One request, if it is a legal one. */
    method Serve(e: Request)
      requires Valid()
      modifies this, heap, heap.small, heap.large
      ensures Valid() && Goes(old(W()), W(), e)
      ensures forall mem :: mem in old(live) && e != Free(mem) ==> mem in live && live[mem] == old(live)[mem]
    {
      match e {
        case Malloc(bytes, more) =>
          if bytes < TWO_64 && (more ==> heap.m.segsize + SystemSize(ChunkSizeFor(bytes)) < TWO_40) {
            NewBlock(bytes, more);
          }
        case Free(mem) =>
          if mem in live {
            GiveBack(mem);
          }
      }
    }

    lemma AllFit(l: Layout, l': Layout, live: map<Addr, nat>, live': map<Addr, nat>, mem: Addr, bytes: nat)
      requires Served(l, l', mem - 16, ChunkSizeFor(bytes)) && mem % 8 == 0 && live' == live[mem := bytes]
      requires forall p {:trigger Live(l, p)} :: Live(l, p) <==> p + 16 in live
      requires forall a :: a in live ==> Fits(l, a, live[a])
      ensures mem !in live && forall p {:trigger Live(l', p)} :: Live(l', p) <==> p + 16 in live'
      ensures forall a :: a in live' ==> Fits(l', a, live'[a])
    {
      assert !Live(l, mem - 16) && Live(l', mem - 16);
      forall a | a in live ensures Fits(l', a, live[a]) {
        assert Fits(l, a, live[a]);
        assert Live(l', a - 16);
      }
    }

    method NewBlock(bytes: nat, more: bool)
      requires Valid() && bytes < TWO_64 && (more ==> heap.m.segsize + SystemSize(ChunkSizeFor(bytes)) < TWO_40)
      modifies this, heap, heap.small, heap.large
      ensures Valid() && (Refuses(old(W()), W(), bytes, more) || exists mem :: HandsOut(old(W()), W(), bytes, mem))
    {
      ghost var l := heap.L();
      var mem := heap.Malloc(bytes, more);
      if mem != 0 {
        AllFit(l, heap.L(), live, live[mem := bytes], mem, bytes);
        live := live[mem := bytes];
        assert HandsOut(old(W()), W(), bytes, mem);
      }
    }

    method GiveBack(mem: Addr)
      requires Valid() && mem in live
      modifies this, heap, heap.small, heap.large
      ensures Valid() && live == old(live) - {mem} && Freed(old(heap.L()), heap.L(), mem - 16)
    {
      ghost var l := heap.L();
      assert Fits(l, mem, live[mem]);
      BeforeEnd(l, mem - 16);
      heap.FreeBlock(mem);
      live := live - {mem};
      forall a | a in live ensures Fits(heap.L(), a, live[a]) {
        assert Fits(l, a, live[a]);
        assert Live(heap.L(), a - 16);
      }
    }

    /**
     * Any sequence of requests leaves a well-formed heap whose blocks in use are those handed out
     * and not freed; each was chosen as promised, and was refused only if nothing fitted.
     */
    method Run(script: seq<Request>) returns (ghost trace: seq<World>)
      requires Valid()
      modifies this, heap, heap.small, heap.large
      ensures Valid() && Leads(Goes, trace, script, |script|, old(W()), W())
      ensures forall mem :: mem in old(live) && Free(mem) !in script ==> mem in live && live[mem] == old(live)[mem]
    {
      trace := [W()];
      for i := 0 to |script|
        invariant Valid() && Leads(Goes, trace, script, i, old(W()), W())
        invariant forall mem :: mem in old(live) && Free(mem) !in script ==> mem in live && live[mem] == old(live)[mem]
      {
        Serve(script[i]);
        TraceGrows(Goes, trace, W(), script);
        trace := trace + [W()];
      }
    }
  }
}
