/** Any use of an arena by callers that follow the rules. */
module ArenaUsers {
  import opened Basics
  import opened Traces
  import opened Align
  import opened PageRuns
  import opened ArenaState
  import opened ArenaOps
  import opened Arena

  /** What users of an arena ask for. */
  datatype Request =
    | Malloc(n: nat, newChunk: Option<nat>)
    | Aligned(n: nat, al: nat, newChunk: Option<nat>)
    | SmallRun(bin: nat, newChunk: Option<nat>)
    | Dalloc(p: Page)
    | SmallDalloc(p: Page, keep: nat)
    | Shrink(p: Page, newLen: nat)
    | Grow(p: Page, size: nat, extra: nat)
    | PurgeEverything

  /** Length and kind of a run, as its user knows it. */
  datatype Block = Block(len: nat, kind: Kind)

  predicate Concerns(e: Request, p: Page) {
    (e.Dalloc? || e.SmallDalloc? || e.Shrink? || e.Grow?) && e.p == p
  }

  /** The blocks handed out, and the arena. */
  datatype World = World(g: Geometry, rp: seq<nat>, live: map<Page, Block>, s: State, runs: Runs)

  /** A new block if the arena has room or gets a chunk, and else nothing. */
  ghost predicate HandsOut(w: World, w': World, n: nat, kind: Kind, al: nat, newChunk: Option<nat>)
    requires n > 0 && al > 0
  {
    if newChunk.None? && Exhausted(w.s, w.runs, n + al - 1) then w' == w
    else exists p :: p !in w.live && w'.live == w.live[p := Block(n, kind)] && Multiple(Address(w.g, p), al)
  }

  /** The users keep to the rules. */
  predicate Legal(w: World, e: Request) {
    match e
    case Malloc(n, c) => 0 < n <= w.g.MaxLen() && (c.Some? ==> c.value !in w.s.chunkDirty)
    case Aligned(n, al, c) => n > 0 && al > 0 && n + al - 1 <= w.g.MaxLen() && (c.Some? ==> c.value !in w.s.chunkDirty)
    case SmallRun(b, c) => b < |w.rp| && 0 < w.rp[b] <= w.g.MaxLen() && (c.Some? ==> c.value !in w.s.chunkDirty)
    case Dalloc(p) => p in w.live && w.live[p].kind.Large?
    case SmallDalloc(p, keep) => p in w.live && w.live[p].kind.Small? && keep > 0
    case Shrink(p, newLen) => p in w.live && w.live[p].kind.Large? && 0 < newLen < w.live[p].len
    case Grow(p, size, extra) => p in w.live && p in w.runs && w.live[p].kind.Large? && size + extra > w.live[p].len && size < WRAP
    case PurgeEverything => true
  }

  /** What a request does. */
  ghost predicate Goes(w: World, w': World, e: Request) {
    if !Legal(w, e) then w' == w else
    w' == w.(live := w'.live, s := w'.s, runs := w'.runs) &&
    match e
    case Malloc(n, c) => HandsOut(w, w', n, Large, 1, c)
    case Aligned(n, al, c) => HandsOut(w, w', n, Large, al, c)
    case SmallRun(b, c) => HandsOut(w, w', w.rp[b], Small(b), 1, c)
    case Dalloc(p) => w'.live == w.live - {p}
    case SmallDalloc(p, _) => w'.live == w.live - {p}
    case Shrink(p, newLen) => w'.live == w.live[p := Block(newLen, Large)]
    case Grow(p, size, extra) =>
      if CanGrow(w.runs, p, size) then w'.live == w.live[p := Block(Grown(w.runs, p, size + extra).len, Large)] else w' == w
    case PurgeEverything => w'.live == w.live && w'.s.ndirty == 0
  }

  lemma Unconcerned(w: World, w': World, e: Request)
    requires Goes(w, w', e)
    ensures forall p :: p in w.live && !Concerns(e, p) ==> p in w'.live && w'.live[p] == w.live[p]
  {
  }

  /** An arena with users that follow the rules. */
  class Users {
    const arena: Arena
    var live: map<Page, Block>

    ghost predicate Knows()
      reads this, arena
    {
      && live.Keys == Used(arena.runs).Keys
      && forall p :: p in live ==> live[p] == Block(arena.runs[p].len, arena.runs[p].kind)
    }

    ghost predicate Valid()
      reads this, arena
    {
      && arena.Valid() && arena.npurgatory == 0 && Bounded(arena.g, arena.lgDirtyMult, arena.s) && Knows()
      && arena.g.np < WRAP
    }

    constructor (g: Geometry, rp: seq<nat>, lgDirtyMult: int)
      requires g.Ok() && g.np < WRAP
      ensures Valid() && fresh(arena) && live == map[]
    {
      arena := new Arena(g, rp, lgDirtyMult);
      live := map[];
    }

    /** Blocks never overlap. */
    lemma BlocksApart(p: Page, q: Page)
      requires Valid() && p in live && q in live && p.c == q.c && p.i < q.i
      ensures p.i + live[p].len <= q.i && q.i + live[q].len <= arena.g.np
    {
      assert p in Used(arena.runs) && q in Used(arena.runs);
      assert RunsApart(arena.runs, p, q) && RunOk(arena.g, arena.runs, q);
    }

    ghost function W(): World
      reads this, arena
    {
      World(arena.g, arena.rp, live, arena.s, arena.runs)
    }

    /** A block has been handed out, or none. */
    method Record(r: Option<Page>, n: nat, kind: Kind)
      requires arena.Valid() && arena.npurgatory == 0 && Bounded(arena.g, arena.lgDirtyMult, arena.s) && arena.g.np < WRAP
      requires r.None? ==> Knows()
      requires r.Some? ==> r.value !in live && r.value in Used(arena.runs) && arena.runs[r.value].len == n && arena.runs[r.value].kind == kind
      requires r.Some? ==> live.Keys == Used(arena.runs).Keys - {r.value}
      requires r.Some? ==> forall p :: p in live ==> live[p] == Block(arena.runs[p].len, arena.runs[p].kind)
      modifies this
      ensures Valid() && live == if r.Some? then old(live)[r.value := Block(n, kind)] else old(live)
    {
      if r.Some? {
        live := live[r.value := Block(n, kind)];
      }
    }

    method NewBlock(e: Request)
      requires Valid() && (e.Malloc? || e.SmallRun?) && Legal(W(), e)
      modifies this, arena
      ensures Valid() && Goes(old(W()), W(), e)
    {
      if e.newChunk.Some? {
        arena.UnknownChunk(e.newChunk.value);
      }
      if e.Malloc? {
        var r := arena.MallocLarge(e.n, e.newChunk);
        Record(r, e.n, Large);
      } else {
        var r := arena.AllocSmall(e.bin, e.newChunk);
        Record(r, arena.rp[e.bin], Small(e.bin));
      }
    }

    method AlignedBlock(n: nat, al: nat, newChunk: Option<nat>)
      requires Valid() && Legal(W(), Aligned(n, al, newChunk))
      modifies this, arena
      ensures Valid() && Goes(old(W()), W(), Aligned(n, al, newChunk))
    {
      if newChunk.Some? {
        arena.UnknownChunk(newChunk.value);
      }
      var r := arena.Palloc(n, al, newChunk);
      Record(r, n, Large);
    }

    method FreeBlock(e: Request)
      requires Valid() && (e.Dalloc? || e.SmallDalloc?) && Legal(W(), e)
      modifies this, arena
      ensures Valid() && Goes(old(W()), W(), e)
    {
      if e.Dalloc? {
        ghost var _ := arena.DallocLarge(e.p);
      } else {
        ghost var _ := arena.DallocBinRun(e.p, e.keep);
      }
      live := live - {e.p};
    }

    method ResizeBlock(e: Request)
      requires Valid() && (e.Shrink? || e.Grow?) && Legal(W(), e)
      modifies this, arena
      ensures Valid() && Goes(old(W()), W(), e)
    {
      if e.Shrink? {
        ghost var _ := arena.ShrinkLarge(e.p, e.newLen);
        live := live[e.p := Block(e.newLen, Large)];
      } else {
        var failed := arena.GrowLarge(e.p, e.size, e.extra);
        if !failed {
          assert e.p in Used(arena.runs);
          FirstEntry(arena.s.bits, arena.runs, e.p);
          live := live[e.p := Block(arena.s.bits[e.p].size, Large)];
        }
      }
    }

    /** One request, if it is a legal one. */
    method Serve(e: Request)
      requires Valid()
      modifies this, arena
      ensures Valid() && Goes(old(W()), W(), e)
    {
      var legal := MayServe(e);
      if !legal {
        return;
      }
      match e {
        case Malloc(_, _) => NewBlock(e);
        case Aligned(n, al, c) => AlignedBlock(n, al, c);
        case SmallRun(_, _) => NewBlock(e);
        case Dalloc(_) => FreeBlock(e);
        case SmallDalloc(_, _) => FreeBlock(e);
        case Shrink(_, _) => ResizeBlock(e);
        case Grow(_, _, _) => ResizeBlock(e);
        case PurgeEverything => ghost var _ := arena.PurgeAll();
      }
    }

    method MayServe(e: Request) returns (legal: bool)
      requires Valid()
      ensures legal == Legal(W(), e)
    {
      match e {
        case Malloc(n, c) => legal := 0 < n <= arena.g.MaxLen() && arena.NewOk(c);
        case Aligned(n, al, c) => legal := n > 0 && al > 0 && n + al - 1 <= arena.g.MaxLen() && arena.NewOk(c);
        case SmallRun(b, c) => legal := b < |arena.rp| && 0 < arena.rp[b] <= arena.g.MaxLen() && arena.NewOk(c);
        case Dalloc(p) => legal := p in live && live[p].kind.Large?;
        case SmallDalloc(p, keep) => legal := p in live && live[p].kind.Small? && keep > 0;
        case Shrink(p, newLen) => legal := p in live && live[p].kind.Large? && 0 < newLen < live[p].len;
        case Grow(p, size, extra) => legal := p in live && live[p].kind.Large? && size + extra > live[p].len && size < WRAP;
        case PurgeEverything => legal := true;
      }
    }

    /**
     * Any sequence of requests keeps the page map, the counters and the bound on dirty pages; each
     * does what it is for, and blocks it does not concern stay as they are.
     */
    method Run(script: seq<Request>) returns (ghost trace: seq<World>)
      requires Valid()
      modifies this, arena
      ensures Valid() && Leads(Goes, trace, script, |script|, old(W()), W())
      ensures forall p :: p in old(live) && (forall e :: e in script ==> !Concerns(e, p)) ==> p in live && live[p] == old(live)[p]
    {
      trace := [W()];
      for i := 0 to |script|
        invariant Valid() && Leads(Goes, trace, script, i, old(W()), W())
        invariant forall p :: p in old(live) && (forall e :: e in script ==> !Concerns(e, p)) ==> p in live && live[p] == old(live)[p]
      {
        Serve(script[i]);
        Unconcerned(trace[i], W(), script[i]);
        TraceGrows(Goes, trace, W(), script);
        trace := trace + [W()];
      }
    }
  }
}
