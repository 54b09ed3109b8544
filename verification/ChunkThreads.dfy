/**
 * Threads that allocate and free chunks and huge blocks at the same time.  Each event is one
 * step between lock operations; a script of events is a schedule.  Every range in use has one
 * holder: a client of the chunk layer, the tree of huge blocks, a thread, or nobody any more.
 */
module ChunkThreads {
  import opened Basics
  import opened Traces
  import opened Extents
  import opened Align
  import opened ChunkPool
  import H = Huge

  type Tid = nat

  /** What a thread in chunk_alloc was asked for, and whether on behalf of the base or huge allocator. */
  datatype Want = Want(size: nat, alignment: nat, base: bool, huge: bool) {
    ghost predicate Ok(c: nat)
      requires c > 0
    {
      0 < size < TWO_64 && Multiple(size, c) && 0 < alignment < TWO_64 && Multiple(alignment, c)
    }

    predicate Suits(r: Ext)
      requires alignment > 0
    {
      r.size == size && Multiple(r.addr, alignment)
    }
  }

  /** Where a thread is while it holds no lock. */
  datatype Pc =
    | Idle
    | AwaitNode(block: Ext, pending: Ext, want: Want)
    | AwaitMap(want: Want)
    | Registering(r: Ext, want: Want)
    | Entering(r: Ext)
    | Returning(r: Ext, unmap: bool, next: Option<Want>)

  datatype Holder = Client | HugeTree | Thread(tid: Tid) | Leaked

  datatype Event =
    | Alloc(tid: Tid, want: Want)
    | HugeAlloc(tid: Tid, size: nat, alignment: nat, node: bool)
    | Node(tid: Tid, n: Option<Extents.Node>)
    | Map(tid: Tid, addr: Option<nat>)
    | Register(tid: Tid, ok: bool)
    | Enter(tid: Tid)
    | Dealloc(tid: Tid, r: Ext)
    | HugeDealloc(tid: Tid, ptr: nat, unmap: bool)
    | Finish(tid: Tid, unmapped: bool, xnode: Option<Extents.Node>)

  /** What a thread has in hand is held by it, and is what it was asked for. */
  ghost predicate HasInHand(c: nat, holder: map<Ext, Holder>, tid: Tid, pc: Pc)
    requires c > 0
  {
    match pc
    case Idle => true
    case AwaitNode(block, pending, want) =>
      && block != pending && block in holder && holder[block] == Thread(tid) && pending in holder && holder[pending] == Thread(tid)
      && want.Ok(c) && want.Suits(block)
    case AwaitMap(want) => want.Ok(c)
    case Registering(r, want) => r in holder && holder[r] == Thread(tid) && want.Ok(c) && want.Suits(r)
    case Entering(r) => r in holder && holder[r] == Thread(tid)
    case Returning(r, _, next) => r in holder && holder[r] == Thread(tid) && (next.Some? ==> next.value.Ok(c))
  }

  ghost predicate AllHave(c: nat, holder: map<Ext, Holder>, pcs: map<Tid, Pc>)
    requires c > 0
  {
    forall tid {:trigger HasInHand(c, holder, tid, pcs[tid])} :: tid in pcs ==> HasInHand(c, holder, tid, pcs[tid])
  }

  /** The tree of huge blocks lists exactly the ranges it holds. */
  ghost predicate HugeOk(holder: map<Ext, Holder>, huge: map<nat, nat>) {
    && (forall a :: a in huge ==> Ext(a, huge[a]) in holder && holder[Ext(a, huge[a])] == HugeTree)
    && (forall r :: r in holder && holder[r] == HugeTree ==> r.addr in huge && huge[r.addr] == r.size)
  }

  /** A change to ranges that other threads do not hold leaves them what they have. */
  lemma OthersHave(c: nat, holder: map<Ext, Holder>, holder': map<Ext, Holder>, pcs: map<Tid, Pc>, tid: Tid, pc: Pc)
    requires c > 0 && AllHave(c, holder, pcs) && HasInHand(c, holder', tid, pc)
    requires forall r, u :: r in holder && holder[r] == Thread(u) && u != tid ==> r in holder' && holder'[r] == Thread(u)
    ensures AllHave(c, holder', pcs[tid := pc])
  {
    var pcs' := pcs[tid := pc];
    forall u | u in pcs' ensures HasInHand(c, holder', u, pcs'[u]) {
      if u != tid {
        assert HasInHand(c, holder, u, pcs[u]);
      }
    }
  }

  /** The thread changes what it holds itself, or takes over or hands over a range. */
  ghost predicate OnlyOwn(holder: map<Ext, Holder>, holder': map<Ext, Holder>, tid: Tid) {
    forall r :: r in holder && holder[r] != Thread(tid) ==> r in holder' && holder'[r] == holder[r]
  }

  /** A range the thread held is gone, or lost. */
  ghost predicate Released(holder: map<Ext, Holder>, holder': map<Ext, Holder>, tid: Tid, r: Ext) {
    r in holder && holder[r] == Thread(tid) && (holder' == holder - {r} || holder' == holder[r := Leaked])
  }

  lemma ReleaseKeeps(holder: map<Ext, Holder>, holder': map<Ext, Holder>, huge: map<nat, nat>, tid: Tid, r: Ext)
    requires HugeOk(holder, huge) && Released(holder, holder', tid, r)
    ensures HugeOk(holder', huge) && OnlyOwn(holder, holder', tid)
  {
  }

  // --------------------------------------------------------------------------
  // What an event does
  // --------------------------------------------------------------------------

  /** The recorded extents, the threads, the holders of the ranges in use, and the tree of huge blocks. */
  datatype World = World(c: nat, view: Keys, pcs: map<Tid, Pc>, holder: map<Ext, Holder>, huge: map<nat, nat>) {
    function At(tid: Tid): Pc {
      if tid in pcs then pcs[tid] else Idle
    }

    /** The thread moves on, and what is held changes. */
    function Move(tid: Tid, pc: Pc, holder': map<Ext, Holder>): World {
      this.(pcs := pcs[tid := pc], holder := holder')
    }
  }

  /** A range for the block, and perhaps one behind it, are in the thread's hand. */
  ghost predicate Carves(w: World, w': World, tid: Tid, want: Want, ret: nat, pending: Option<Ext>)
    requires w.c > 0 && want.alignment > 0
  {
    var block := Ext(ret, want.size);
    && Carved(w.view, w'.view, w.holder.Keys, want.size, want.alignment, w.c, ret, pending)
    && w'.(view := w.view) ==
       if pending.None? then w.Move(tid, Registering(block, want), w.holder[block := Thread(tid)])
       else w.Move(tid, AwaitNode(block, pending.value, want), w.holder[block := Thread(tid)][pending.value := Thread(tid)])
  }

  ghost predicate AllocGoes(w: World, w': World, tid: Tid, want: Want)
    requires w.c > 0 && want.alignment > 0
  {
    if want.base || Scarce(w.view, want.size, want.alignment, w.c) then w' == w.Move(tid, AwaitMap(want), w.holder)
    else exists ret, pending :: Carves(w, w', tid, want, ret, pending)
  }

  ghost predicate HugeGoes(w: World, w': World, tid: Tid, size: nat, alignment: nat, node: bool)
    requires w.c > 0 && alignment > 0
  {
    var csize := H.ChunkCeiling(size, w.c);
    if csize == 0 || !node then w' == w else AllocGoes(w, w', tid, Want(csize, alignment, false, true))
  }

  ghost predicate NodeGoes(w: World, w': World, tid: Tid, n: Option<Extents.Node>)
    requires w.At(tid).AwaitNode?
  {
    var pc := w.At(tid);
    w' == if n.Some? then w.Move(tid, Registering(pc.block, pc.want), w.holder - {pc.pending}).(view := w.view[n.value := pc.pending])
          else w.Move(tid, Returning(pc.block, true, Some(pc.want)), w.holder[pc.pending := Leaked])
  }

  ghost predicate MapGoes(w: World, w': World, tid: Tid, addr: Option<nat>)
    requires w.At(tid).AwaitMap?
  {
    var want := w.At(tid).want;
    w' == if addr.None? then w.Move(tid, Idle, w.holder)
          else w.Move(tid, Registering(Ext(addr.value, want.size), want), w.holder[Ext(addr.value, want.size) := Thread(tid)])
  }

  ghost predicate RegisterGoes(w: World, w': World, tid: Tid, ok: bool)
    requires w.At(tid).Registering?
  {
    var r, want := w.At(tid).r, w.At(tid).want;
    w' == if !ok && !want.base then w.Move(tid, Returning(r, true, None), w.holder)
          else if want.huge then w.Move(tid, Entering(r), w.holder)
          else w.Move(tid, Idle, w.holder[r := Client])
  }

  ghost predicate EnterGoes(w: World, w': World, tid: Tid)
    requires w.At(tid).Entering?
  {
    var r := w.At(tid).r;
    r.addr !in w.huge && w' == w.Move(tid, Idle, w.holder[r := HugeTree]).(huge := w.huge[r.addr := r.size])
  }

  ghost predicate HugeDeallocGoes(w: World, w': World, tid: Tid, ptr: nat, unmap: bool)
    requires ptr in w.huge
  {
    var r := Ext(ptr, w.huge[ptr]);
    w' == w.Move(tid, Returning(r, unmap, None), w.holder[r := Thread(tid)]).(huge := w.huge - {ptr})
  }

  /** The range is lost if it is not to be unmapped, or is to be recorded and there is no node for it. */
  ghost predicate FinishGoes(w: World, w': World, tid: Tid, unmapped: bool, xnode: Option<Extents.Node>)
    requires w.At(tid).Returning?
  {
    var r, unmap, next := w.At(tid).r, w.At(tid).unmap, w.At(tid).next;
    var leaked := !unmap || (!unmapped && xnode.None? && NoneAt(w.view, r.End()));
    && w'.(view := w.view) ==
       w.Move(tid, if next.Some? then AwaitMap(next.value) else Idle, if leaked then w.holder[r := Leaked] else w.holder - {r})
    && (if leaked || unmapped then w'.view == w.view else forall a :: Covers(w'.view, a) <==> Covers(w.view, a) || r.Has(a))
  }

  ghost predicate Unused(w: World, r: Ext)
    requires w.c > 0
  {
    Fits(r, w.c) && Outside(w.view, r) && forall q :: q in w.holder ==> Apart(q, r)
  }

  /** The thread is where the event can happen, and the environment's answer is possible. */
  ghost predicate Enabled(w: World, e: Event)
    requires w.c > 0
  {
    match e
    case Alloc(tid, want) => w.At(tid).Idle? && want.Ok(w.c)
    case HugeAlloc(tid, size, alignment, _) => w.At(tid).Idle? && size < TWO_64 && 0 < alignment < TWO_64 && Multiple(alignment, w.c)
    case Node(tid, n) => w.At(tid).AwaitNode? && (n.None? || n.value !in w.view)
    case Map(tid, addr) =>
      && w.At(tid).AwaitMap?
      && (addr.Some? ==> var want := w.At(tid).want; var r := Ext(addr.value, want.size); want.alignment > 0 && want.Suits(r) && Unused(w, r))
    case Register(tid, _) => w.At(tid).Registering?
    case Enter(tid) => w.At(tid).Entering?
    case Dealloc(tid, r) => w.At(tid).Idle? && r in w.holder && w.holder[r] == Client
    case HugeDealloc(tid, ptr, _) => w.At(tid).Idle? && ptr in w.huge
    case Finish(tid, _, xnode) => w.At(tid).Returning? && (xnode.None? || xnode.value !in w.view)
  }

  /** The step from `w` to `w'`: the event's effect if it can happen, and else none. */
  ghost predicate Goes(w: World, w': World, e: Event) {
    w.c > 0 &&
    if !Enabled(w, e) then w' == w else
    match e
    case Alloc(tid, want) => AllocGoes(w, w', tid, want)
    case HugeAlloc(tid, size, alignment, node) => HugeGoes(w, w', tid, size, alignment, node)
    case Node(tid, n) => NodeGoes(w, w', tid, n)
    case Map(tid, addr) => MapGoes(w, w', tid, addr)
    case Register(tid, ok) => RegisterGoes(w, w', tid, ok)
    case Enter(tid) => EnterGoes(w, w', tid)
    case Dealloc(tid, r) => w' == w.Move(tid, Returning(r, true, None), w.holder[r := Thread(tid)])
    case HugeDealloc(tid, ptr, unmap) => HugeDeallocGoes(w, w', tid, ptr, unmap)
    case Finish(tid, unmapped, xnode) => FinishGoes(w, w', tid, unmapped, xnode)
  }

  class Threads {
    const chunks: Chunks
    var pcs: map<Tid, Pc>
    var holder: map<Ext, Holder>
    /** The tree of huge blocks, by address. */
    var huge: map<nat, nat>

    ghost predicate Valid()
      reads this, chunks
    {
      && chunks.Valid() && Multiple(TWO_64, chunks.chunksize)
      && holder.Keys == chunks.owned && AllHave(chunks.chunksize, holder, pcs) && HugeOk(holder, huge)
    }

    constructor (chunksize: nat)
      requires chunksize > 0 && Multiple(TWO_64, chunksize)
      ensures Valid() && fresh(chunks) && holder == map[] && pcs == map[] && huge == map[]
    {
      chunks := new Chunks(chunksize);
      pcs, holder, huge := map[], map[], map[];
    }

    /** Blocks of clients, huge blocks, ranges in hand, lost ranges and recorded extents never overlap. */
    lemma NoOverlap(r: Ext, q: Ext, n: Extents.Node)
      requires Valid() && r in holder && q in holder
      ensures r != q ==> Apart(r, q)
      ensures n in View(chunks.t) ==> Apart(View(chunks.t)[n], r)
    {
      assert RangesApart(r, q);
    }

    ghost function W(): World
      requires chunks.Valid()
      reads this, chunks
    {
      World(chunks.chunksize, View(chunks.t), pcs, holder, huge)
    }

    function PcOf(tid: Tid): Pc
      reads this
    {
      if tid in pcs then pcs[tid] else Idle
    }

    /** The thread moves on, and what it holds changes with it. */
    method MoveOn(tid: Tid, pc: Pc, holder': map<Ext, Holder>)
      requires chunks.Valid() && Multiple(TWO_64, chunks.chunksize) && AllHave(chunks.chunksize, holder, pcs) && HugeOk(holder', huge)
      requires holder'.Keys == chunks.owned && HasInHand(chunks.chunksize, holder', tid, pc)
      requires forall r, u :: r in holder && holder[r] == Thread(u) && u != tid ==> r in holder' && holder'[r] == Thread(u)
      modifies this`pcs, this`holder
      ensures Valid() && holder == holder' && pcs == old(pcs)[tid := pc]
    {
      OthersHave(chunks.chunksize, holder, holder', pcs, tid, pc);
      pcs, holder := pcs[tid := pc], holder';
    }

    /** The thread moves on without a range it held. */
    method MoveWithout(tid: Tid, pc: Pc, r: Ext, holder': map<Ext, Holder>)
      requires chunks.Valid() && Multiple(TWO_64, chunks.chunksize) && AllHave(chunks.chunksize, holder, pcs) && HugeOk(holder, huge)
      requires Released(holder, holder', tid, r) && holder'.Keys == chunks.owned && HasInHand(chunks.chunksize, holder', tid, pc)
      modifies this`pcs, this`holder
      ensures Valid() && holder == holder' && pcs == old(pcs)[tid := pc] && OnlyOwn(old(holder), holder, tid)
    {
      ReleaseKeeps(holder, holder', huge, tid, r);
      MoveOn(tid, pc, holder');
    }

    /** chunk_alloc up to the end of the first critical section of chunk_recycle. */
    method StartAlloc(tid: Tid, want: Want)
      requires Valid() && PcOf(tid) == Idle && want.Ok(chunks.chunksize)
      modifies this, chunks
      ensures Valid() && huge == old(huge) && OnlyOwn(old(holder), holder, tid)
      ensures AllocGoes(old(W()), W(), tid, want)
    {
      if want.base {
        MoveOn(tid, AwaitMap(want), holder);
        return;
      }
      var ret, pending := chunks.TakeExtent(want.size, want.alignment);
      if ret.None? {
        MoveOn(tid, AwaitMap(want), holder);
      } else {
        var block := Ext(ret.value, want.size);
        if pending.None? {
          MoveOn(tid, Registering(block, want), holder[block := Thread(tid)]);
        } else {
          MoveOn(tid, AwaitNode(block, pending.value, want), holder[block := Thread(tid)][pending.value := Thread(tid)]);
        }
        assert Carves(old(W()), W(), tid, want, ret.value, pending);
      }
    }

    /** huge_palloc up to there: `node` says whether a node for the tree could be allocated. */
    method StartHuge(tid: Tid, size: nat, alignment: nat, node: bool)
      requires Valid() && PcOf(tid) == Idle && size < TWO_64 && 0 < alignment < TWO_64 && Multiple(alignment, chunks.chunksize)
      modifies this, chunks
      ensures Valid() && huge == old(huge) && OnlyOwn(old(holder), holder, tid)
      ensures HugeGoes(old(W()), W(), tid, size, alignment, node)
    {
      var csize := H.ChunkCeiling(size, chunks.chunksize);
      H.CeilingHolds(size, chunks.chunksize, 0);
      if csize != 0 && node {
        StartAlloc(tid, Want(csize, alignment, false, true));
      }
    }

    /**
     * The node allocator has answered a thread in chunk_recycle.  With a node the range behind
     * the block is recorded; without one it is lost, and the block is given up.
     */
    method GotNode(tid: Tid, n: Option<Extents.Node>)
      requires Valid() && PcOf(tid).AwaitNode? && (n.Some? ==> n.value !in View(chunks.t))
      modifies this, chunks
      ensures Valid() && huge == old(huge) && OnlyOwn(old(holder), holder, tid)
      ensures NodeGoes(old(W()), W(), tid, n)
    {
      if n.None? {
        LoseTrail(tid);
      } else {
        StoreTrail(tid, n.value);
      }
    }

    method LoseTrail(tid: Tid)
      requires Valid() && PcOf(tid).AwaitNode?
      modifies this
      ensures Valid() && huge == old(huge) && OnlyOwn(old(holder), holder, tid)
      ensures NodeGoes(old(W()), W(), tid, None)
    {
      assert HasInHand(chunks.chunksize, holder, tid, pcs[tid]);
      MoveWithout(tid, Returning(pcs[tid].block, true, Some(pcs[tid].want)), pcs[tid].pending, holder[pcs[tid].pending := Leaked]);
    }

    /** The second critical section of chunk_recycle. */
    method RecordTrail(r: Ext, n: Extents.Node)
      requires chunks.Valid() && r in chunks.owned && n !in View(chunks.t)
      modifies chunks
      ensures chunks.Valid() && chunks.owned == old(chunks.owned) - {r} && View(chunks.t) == old(View(chunks.t))[n := r]
    {
      chunks.InsertTrail(r, n);
    }

    method StoreTrail(tid: Tid, n: Extents.Node)
      requires Valid() && PcOf(tid).AwaitNode? && n !in View(chunks.t)
      modifies this, chunks
      ensures Valid() && huge == old(huge) && OnlyOwn(old(holder), holder, tid)
      ensures NodeGoes(old(W()), W(), tid, Some(n))
    {
      assert HasInHand(chunks.chunksize, holder, tid, pcs[tid]);
      var pending := pcs[tid].pending;
      RecordTrail(pending, n);
      MoveWithout(tid, Registering(pcs[tid].block, pcs[tid].want), pending, holder - {pending});
    }

    /** The system answers: a range that nothing uses, or none. */
    method GotMap(tid: Tid, addr: Option<nat>)
      requires Valid() && PcOf(tid).AwaitMap?
      requires addr.Some? ==> var r := Ext(addr.value, PcOf(tid).want.size); PcOf(tid).want.alignment > 0 && PcOf(tid).want.Suits(r) && chunks.Unused(r)
      modifies this, chunks
      ensures Valid() && huge == old(huge) && OnlyOwn(old(holder), holder, tid)
      ensures MapGoes(old(W()), W(), tid, addr)
    {
      var want := pcs[tid].want;
      assert HasInHand(chunks.chunksize, holder, tid, pcs[tid]);
      if addr.None? {
        MoveOn(tid, Idle, holder);
      } else {
        var r := Ext(addr.value, want.size);
        assert r in chunks.owned ==> Apart(r, r);
        chunks.Map(r);
        MoveOn(tid, Registering(r, want), holder[r := Thread(tid)]);
      }
    }

    /** The block is registered, unless it is for the base allocator; if that fails it is given up. */
    method Registered(tid: Tid, ok: bool)
      requires Valid() && PcOf(tid).Registering?
      modifies this
      ensures Valid() && huge == old(huge) && OnlyOwn(old(holder), holder, tid) && old(PcOf(tid)).r in old(holder)
      ensures RegisterGoes(old(W()), W(), tid, ok)
      ensures old(PcOf(tid)).want.alignment > 0 && old(PcOf(tid)).want.Suits(old(PcOf(tid)).r)
    {
      assert HasInHand(chunks.chunksize, holder, tid, pcs[tid]);
      var r, want := pcs[tid].r, pcs[tid].want;
      if !ok && !want.base {
        MoveOn(tid, Returning(r, true, None), holder);
      } else if want.huge {
        MoveOn(tid, Entering(r), holder);
      } else {
        MoveOn(tid, Idle, holder[r := Client]);
      }
    }

    /** huge_palloc enters the block into the tree: no other huge block is at its address. */
    method EnterHuge(tid: Tid)
      requires Valid() && PcOf(tid).Entering?
      modifies this
      ensures Valid() && OnlyOwn(old(holder), holder, tid) && EnterGoes(old(W()), W(), tid)
    {
      assert HasInHand(chunks.chunksize, holder, tid, pcs[tid]);
      var r := pcs[tid].r;
      assert r.addr in huge ==> RangesApart(r, Ext(r.addr, huge[r.addr]));
      huge := huge[r.addr := r.size];
      MoveOn(tid, Idle, holder[r := HugeTree]);
    }

    /** chunk_dealloc: the client's block is in the thread's hand. */
    method StartDealloc(tid: Tid, r: Ext)
      requires Valid() && PcOf(tid) == Idle && r in holder && holder[r] == Client
      modifies this
      ensures Valid() && W() == old(W()).Move(tid, Returning(r, true, None), old(holder)[r := Thread(tid)])
    {
      MoveOn(tid, Returning(r, true, None), holder[r := Thread(tid)]);
    }

    /** huge_dalloc: the block leaves the tree before its memory goes back. */
    method LeaveHuge(tid: Tid, ptr: nat, unmap: bool)
      requires Valid() && PcOf(tid) == Idle && ptr in huge
      modifies this
      ensures Valid() && HugeDeallocGoes(old(W()), W(), tid, ptr, unmap)
    {
      var r := Ext(ptr, huge[ptr]);
      forall q | q in holder && holder[q] == HugeTree && q != r ensures q.addr != ptr {
        assert q.addr in huge && huge[q.addr] == q.size;
      }
      huge := huge - {ptr};
      MoveOn(tid, Returning(r, unmap, None), holder[r := Thread(tid)]);
    }

    /** The system takes the range back, or it is recorded; a failed chunk_recycle goes on to map. */
    method FinishDealloc(tid: Tid, unmapped: bool, xnode: Option<Extents.Node>)
      requires Valid() && PcOf(tid).Returning? && (xnode.Some? ==> xnode.value !in View(chunks.t))
      modifies this, chunks
      ensures Valid() && huge == old(huge) && OnlyOwn(old(holder), holder, tid)
      ensures FinishGoes(old(W()), W(), tid, unmapped, xnode)
    {
      var r, unmap, next := pcs[tid].r, pcs[tid].unmap, pcs[tid].next;
      assert HasInHand(chunks.chunksize, holder, tid, pcs[tid]);
      var leaked := chunks.Dealloc(r, unmap, unmapped, xnode);
      MoveWithout(tid, if next.Some? then AwaitMap(next.value) else Idle, r, if leaked then holder[r := Leaked] else holder - {r});
    }

    /** The event frees this range. */
    predicate Frees(e: Event, r: Ext) {
      (e.Dealloc? && e.r == r) || (e.HugeDealloc? && e.ptr == r.addr)
    }

    ghost predicate HandedOut(holder: map<Ext, Holder>, r: Ext) {
      r in holder && (holder[r] == Client || holder[r] == HugeTree)
    }

    /** Blocks handed out stay where they are until they are freed. */
    ghost predicate Stays(holder: map<Ext, Holder>, holder': map<Ext, Holder>, e: Event) {
      forall r :: HandedOut(holder, r) && !Frees(e, r) ==> r in holder' && holder'[r] == holder[r]
    }

    /** One event, if the thread is where it can happen and the environment's answer is possible. */
    method Step(e: Event)
      requires Valid()
      modifies this, chunks
      ensures Valid() && Goes(old(W()), W(), e) && Stays(old(holder), holder, e)
    {
      var enabled := CanHappen(e);
      if enabled {
        if e.Alloc? || e.HugeAlloc? || e.Node? || e.Map? {
          FindStep(e);
        } else if e.Register? || e.Enter? {
          HandStep(e);
        } else {
          BackStep(e);
        }
      }
    }

    /** A thread looks for a range. */
    method FindStep(e: Event)
      requires Valid() && Enabled(W(), e) && (e.Alloc? || e.HugeAlloc? || e.Node? || e.Map?)
      modifies this, chunks
      ensures Valid() && Goes(old(W()), W(), e) && Stays(old(holder), holder, e)
    {
      match e {
        case Alloc(tid, want) => StartAlloc(tid, want);
        case HugeAlloc(tid, size, alignment, node) => StartHuge(tid, size, alignment, node);
        case Node(tid, n) => GotNode(tid, n);
        case Map(tid, addr) =>
          if addr.Some? {
            UnusedShows(Ext(addr.value, PcOf(tid).want.size));
          }
          GotMap(tid, addr);
      }
    }

    /** A thread hands its range out. */
    method HandStep(e: Event)
      requires Valid() && Enabled(W(), e) && (e.Register? || e.Enter?)
      modifies this, chunks
      ensures Valid() && Goes(old(W()), W(), e) && Stays(old(holder), holder, e)
    {
      match e {
        case Register(tid, ok) => Registered(tid, ok);
        case Enter(tid) => EnterHuge(tid);
      }
    }

    /** A thread takes a range back. */
    method BackStep(e: Event)
      requires Valid() && Enabled(W(), e) && (e.Dealloc? || e.HugeDealloc? || e.Finish?)
      modifies this, chunks
      ensures Valid() && Goes(old(W()), W(), e) && Stays(old(holder), holder, e)
    {
      match e {
        case Dealloc(tid, r) => StartDealloc(tid, r);
        case HugeDealloc(tid, ptr, unmap) => LeaveHuge(tid, ptr, unmap);
        case Finish(tid, unmapped, xnode) => FinishDealloc(tid, unmapped, xnode);
      }
    }

    lemma UnusedShows(r: Ext)
      requires Valid()
      ensures chunks.Unused(r) <==> Unused(W(), r)
    {
      assert forall n :: n in chunks.t.ad <==> n in View(chunks.t);
      assert forall n :: n in chunks.t.ad ==> View(chunks.t)[n] == chunks.t.k[n];
    }

    /** Whether the event can happen, as the threads, the extent trees and the holders tell. */
    method CanHappen(e: Event) returns (yes: bool)
      requires Valid()
      ensures yes == Enabled(W(), e)
    {
      var pc := PcOf(e.tid);
      if e.Map? && pc.AwaitMap? && e.addr.Some? {
        UnusedShows(Ext(e.addr.value, pc.want.size));
      }
      match e {
        case Alloc(_, want) => yes := pc.Idle? && Wanted(want);
        case HugeAlloc(_, size, alignment, _) => yes := pc.Idle? && size < TWO_64 && 0 < alignment < TWO_64 && Multiple(alignment, chunks.chunksize);
        case Node(_, n) => yes := pc.AwaitNode? && (n.None? || n.value !in chunks.t.ad);
        case Map(_, addr) => yes := pc.AwaitMap? && Possible(pc.want, addr);
        case Register(_, _) => yes := pc.Registering?;
        case Enter(_) => yes := pc.Entering?;
        case Dealloc(_, r) => yes := pc.Idle? && r in holder && holder[r] == Client;
        case HugeDealloc(_, ptr, _) => yes := pc.Idle? && ptr in huge;
        case Finish(_, _, xnode) => yes := pc.Returning? && (xnode.None? || xnode.value !in chunks.t.ad);
      }
    }

    /** What the assertions of chunk_alloc demand of its callers. */
    predicate Wanted(want: Want)
      requires chunks.chunksize > 0
      reads this
    {
      && 0 < want.size < TWO_64 && Multiple(want.size, chunks.chunksize)
      && 0 < want.alignment < TWO_64 && Multiple(want.alignment, chunks.chunksize)
    }

    /** What the system may answer. */
    predicate Possible(want: Want, addr: Option<nat>)
      requires chunks.Valid()
      reads this, chunks
    {
      addr.Some? ==> want.alignment > 0 && want.Suits(Ext(addr.value, want.size)) && chunks.Unused(Ext(addr.value, want.size))
    }

    /**
     * Any schedule: each event does what it is for and no more, and blocks handed out stay with
     * their clients and in the tree until they are freed.
     */
    method Run(script: seq<Event>) returns (ghost trace: seq<World>)
      requires Valid()
      modifies this, chunks
      ensures Valid() && Leads(Goes, trace, script, |script|, old(W()), W())
      ensures forall r :: HandedOut(old(holder), r) && (forall e :: e in script ==> !Frees(e, r)) ==> r in holder && holder[r] == old(holder)[r]
    {
      trace := [W()];
      for i := 0 to |script|
        invariant Valid() && Leads(Goes, trace, script, i, old(W()), W())
        invariant forall r :: HandedOut(old(holder), r) && (forall e :: e in script ==> !Frees(e, r)) ==> r in holder && holder[r] == old(holder)[r]
      {
        assert script[i] in script;
        Step(script[i]);
        TraceGrows(Goes, trace, W(), script);
        trace := trace + [W()];
      }
    }
  }
}
