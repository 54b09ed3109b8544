/**
 * An arena with all its bins, the users of its large runs, and threads that purge or allocate
 * aligned runs, under any schedule: no page that is free and clean has been touched since it
 * was mapped or last purged.
 */
module CleanSystem {
  import opened Basics
  import opened Traces
  import opened PageRuns
  import opened PageStates
  import opened ArenaState
  import opened ArenaOps
  import opened Arena
  import opened CleanPages
  import opened CleanEvents
  import AB = ArenaBins
  import RL = RunLayout

  // --------------------------------------------------------------------------
  // What the steps keep
  // --------------------------------------------------------------------------

  /** The runs in use are the same but for one. */
  ghost predicate UsedElsewhere(runs: Runs, runs': Runs, p: Page) {
    forall q :: q in Used(runs) && q != p ==> q in Used(runs') && Used(runs')[q] == Used(runs)[q]
  }

  /** A large run has changed in place: it has the same user. */
  lemma Resized(w: World, w': World, p: Page, dirtied: set<Page>)
    requires Good(w) && p in w.live && Tiled(w.g, w'.runs) && w' == w.(s := w'.s, runs := w'.runs, touched := Still(w.touched, w'.runs))
    requires Turned(w.runs, w'.runs, dirtied, {}) && p in w'.runs && w'.runs[p].kind.Large? && UsedElsewhere(w.runs, w'.runs, p)
    ensures Good(w')
  {
    ForgetLive(w, p);
    var w1 := WithoutLive(w, p);
    var w2 := w1.(s := w'.s, runs := w'.runs, touched := w'.touched);
    RunsChange(w1, w2, dirtied, {}, {p});
    assert w' == w2.(live := w2.live + {p});
    Adopt(w2, w', p);
  }

  /** A run nobody has is taken in hand. */
  lemma HoldOne(w: World, w': World, t: Tid, h: Hand)
    requires Good(w) && t !in w.hands && w' == w.(hands := w.hands[t := h]) && |h.runs| == 1 && HandOk(w, h) && Unknown(w, {h.runs[0]})
    ensures Good(w')
  {
    assert (set p | p in h.runs) == {h.runs[0]};
    PutHand(w, w', t, h);
  }

  /** A run with room for an aligned one is taken in hand. */
  lemma HoldRoom(w0: World, w: World, w': World, t: Tid, p: Page, n: nat, al: nat)
    requires Good(w) && t !in w.hands && n > 0 && al > 0 && RunTaken(w0, w, p, n + al - 1, Large) && Unknown(w, {p})
    requires !w.runs[p].dirty ==> w.touched !! PagesOf(p, n + al - 1)
    requires w' == w.(hands := w.hands[t := Fit([p], Lead(w.g, p, al), n, al)])
    ensures Good(w')
  {
    var h := Fit([p], Lead(w.g, p, al), n, al);
    LeadFits(w.g, p, n, al);
    assert p in Used(w.runs);
    assert InHandOk(w, h, p);
    HoldOne(w, w', t, h);
  }

  /** The run in hand begins later: its first pages are as clean as it is. */
  lemma HeadGone(w: World, w': World, t: Tid, p: Page, h: Hand, q: Page)
    requires Good(w) && t in w.hands && w.hands[t] == h && h.Fit? && h.runs == [p] && p in w.runs && 0 < h.lead < w.runs[p].len
    requires q == Page(p.c, p.i + h.lead) && q !in w.runs && Tiled(w.g, w'.runs)
    requires w' == w.(s := w'.s, runs := w'.runs, hands := w.hands[t := Fit([q], 0, h.n, h.al)], touched := Still(w.touched, w'.runs))
    requires Turned(w.runs, w'.runs, Only(w.runs[p].dirty, PagesOf(p, h.lead)), Only(!w.runs[p].dirty, PagesOf(p, h.lead)))
    requires Used(w'.runs) == (Used(w.runs) - {p})[q := Run(w.runs[p].len - h.lead, Large, w.runs[p].dirty)]
    ensures Good(w')
  {
    assert HandOk(w, h) && InHandOk(w, h, p);
    ForgetHand(w, t);
    OneOfStash(w, t, p);
    var w1, head := WithoutHand(w, t), PagesOf(p, h.lead);
    var w2 := w1.(s := w'.s, runs := w'.runs, touched := w'.touched);
    assert head <= PagesOf(p, w.runs[p].len);
    RunsChange(w1, w2, Only(w.runs[p].dirty, head), Only(!w.runs[p].dirty, head), {p});
    TrimmedInHand(w, w2, t, p, h, q);
    assert w' == w2.(hands := w2.hands[t := w'.hands[t]]);
    HoldOne(w2, w', t, w'.hands[t]);
  }

  lemma TrimmedInHand(w: World, w2: World, t: Tid, p: Page, h: Hand, q: Page)
    requires Good(w) && t in w.hands && w.hands[t] == h && h.Fit? && h.runs == [p] && p in w.runs && 0 < h.lead < w.runs[p].len
    requires q == Page(p.c, p.i + h.lead) && q !in w.runs
    requires w2.g == w.g && w2.live == w.live && w2.touched <= w.touched && w2.hands == w.hands - {t} && w2.ever == w.ever
    requires Used(w2.runs) == (Used(w.runs) - {p})[q := Run(w.runs[p].len - h.lead, Large, w.runs[p].dirty)]
    ensures HandOk(w2, Fit([q], 0, h.n, h.al)) && Unknown(w2, {q})
  {
    assert HandOk(w, h) && InHandOk(w, h, p);
    assert q in Used(w2.runs) && w2.runs[q] == Run(w.runs[p].len - h.lead, Large, w.runs[p].dirty);
    KnownAreUsed(w);
    assert q !in Used(w.runs) && Unknown(w, {q});
    assert PagesOf(q, w2.runs[q].len) <= PagesOf(p, w.runs[p].len);
    assert Address(w.g, q) == Address(w.g, p) + h.lead;
    assert InHandOk(w2, Fit([q], 0, h.n, h.al), q);
  }

  /** The run in a thread's hand, perhaps shortened, goes to its user. */
  lemma HandedOver(w: World, w': World, t: Tid, p: Page, dirtied: set<Page>, cleaned: set<Page>)
    requires Good(w) && t in w.hands && w.hands[t].runs == [p] && Tiled(w.g, w'.runs)
    requires w' == w.(s := w'.s, runs := w'.runs, hands := w.hands - {t}, live := w.live + {p}, touched := Still(w.touched, w'.runs))
    requires Turned(w.runs, w'.runs, dirtied, cleaned) && w.touched !! cleaned
    requires p in w'.runs && w'.runs[p].kind.Large? && UsedElsewhere(w.runs, w'.runs, p)
    ensures Good(w')
  {
    ForgetHand(w, t);
    OneOfStash(w, t, p);
    var w1 := WithoutHand(w, t);
    var w2 := w1.(s := w'.s, runs := w'.runs, touched := w'.touched);
    RunsChange(w1, w2, dirtied, cleaned, {p});
    assert Unknown(w2, {p});
    Adopt(w2, w', p);
  }

  /** A region has been handed out, and with it the pages it lies on. */
  lemma HandOut(w: World, w': World, b: nat, x: AB.Region)
    requires Good(w) && b < |w.ever| && x.r in w.ever[b] && |w'.bins| == |w.bins|
    requires PageAt(w.g, x.r) in w.runs ==> w.runs[PageAt(w.g, x.r)].len == w.regs[b].npages
    requires w' == w.(bins := w'.bins, ever := w.ever[b := Recall(w.ever[b], x.r, w.ever[b][x.r] + {x.regind})],
                      touched := w.touched + RegionPages(w.regs[b], PageAt(w.g, x.r), x.regind))
    ensures Good(w')
  {
    var w1, p := w'.(touched := w.touched), PageAt(w.g, x.r);
    EverGrows(w, w1, b, x.r, x.regind);
    SmallIsApart(w1, b, x.r);
    var more := RegionPages(w.regs[b], p, x.regind);
    forall a | a in more ensures a in PagesOf(p, w1.runs[p].len) && TouchedPage(w.regs[b], w1.ever[b][x.r], a.i - p.i) {
      RegionTouches(w.regs[b], p, x.regind, w1.ever[b][x.r], a);
    }
    TouchIn(w1, w', p, more);
  }

  /** The bin has answered with a region or with none. */
  lemma Answer(w: World, w1: World, w': World, b: nat, x: Option<AB.Region>)
    requires Good(w) && b < |w.ever| && w1 == w.(bins := w1.bins, ever := w1.ever) && |w1.bins| == |w.bins|
    requires forall r :: r in w.ever[b] && PageAt(w.g, r) in w.runs ==> w.runs[PageAt(w.g, r)].len == w.regs[b].npages
    requires w' == w1.(touched := w.touched + RegionTouched(w, w1, b))
    requires x.None? ==> w1.bins[b].info == w.bins[b].info && w1.ever == w.ever
    requires x.Some? ==> AB.HandedOut(w.bins[b].info, w1.bins[b].info, x.value) && x.value.r in w.ever[b]
                         && w1.ever == w.ever[b := Recall(w.ever[b], x.value.r, w.ever[b][x.value.r] + {x.value.regind})]
    ensures Good(w') && NewRegion(w.bins[b].info, w1.bins[b].info) == x && RegionTouched(w, w', b) == RegionTouched(w, w1, b)
  {
    if x.Some? {
      OneRegion(w.bins[b].info, w1.bins[b].info, x.value);
      HandOut(w, w', b, x.value);
    } else {
      NoRegion(w.bins[b].info, w1.bins[b].info);
      BinsChange(w, w');
    }
  }

  lemma RunRefused(w: World, w1: World, w': World, b: nat, t: Tid)
    requires b < |w.bins| == |w.ever| && b < |w.regs| && w1 == w.(touched := w1.touched) && Exhausted(w.s, w.runs, w.regs[b].npages)
    requires w' == w1.(bins := w1.bins[b := w1.bins[b].(pcs := w1.bins[b].pcs[t := AB.GotRun(None)])])
    ensures SmallRunGoes(w, w', b, t, None) && HeaderTouched(w, w', b, t) == {}
  {
  }

  lemma RunAdopted(w: World, w1: World, w': World, b: nat, t: Tid, p: Page, newChunk: Option<nat>)
    requires b < |w.bins| == |w.ever| && b < |w.regs| && w.regs[b].page > 0 && w.g.np > 0 && PageAt(w.g, Address(w.g, p)) == p
    requires w1 == w.(s := w1.s, runs := w1.runs, touched := w1.touched) && RunTaken(w, w1, p, w.regs[b].npages, Small(b))
    requires AB.PcOf(w.bins[b], t) == AB.NeedRun && !(newChunk.None? && Exhausted(w.s, w.runs, w.regs[b].npages))
    requires w' == w1.(bins := w1.bins[b := AB.Fresh(w1.bins[b], t, Address(w.g, p), w.regs[b].nregs)],
                       ever := w1.ever[b := Recall(w1.ever[b], Address(w.g, p), {})], touched := w'.touched)
    ensures SmallRunGoes(w, w', b, t, newChunk) && HeaderTouched(w, w', b, t) == HeaderPages(w.regs[b], p)
  {
  }

  /** The header of a small run is written. */
  lemma WriteHeader(w: World, w': World, b: nat, r: nat)
    requires Good(w) && b < |w.ever| && r in w.ever[b] && w' == w.(touched := w.touched + HeaderPages(w.regs[b], PageAt(w.g, r)))
    requires PageAt(w.g, r) in w.runs ==> w.runs[PageAt(w.g, r)].len == w.regs[b].npages
    ensures Good(w')
  {
    var p := PageAt(w.g, r);
    SmallIsApart(w, b, r);
    var more := HeaderPages(w.regs[b], p);
    forall a | a in more ensures a in PagesOf(p, w.runs[p].len) && TouchedPage(w.regs[b], w.ever[b][r], a.i - p.i) {
      HeaderTouches(w.regs[b], p, w.ever[b][r], a);
    }
    TouchIn(w, w', p, more);
  }

  /** A small run is given up and goes back trimmed. */
  lemma RunGone(w: World, w1: World, w': World, b: nat, r: nat, keep: nat)
    requires Good(w) && b < |w.ever| && r in w.ever[b] && w1 == WithoutSmall(w, b, r).(bins := w1.bins) && |w1.bins| == |w.bins|
    requires w' == w1.(s := w'.s, runs := w'.runs, touched := Still(w1.touched, w'.runs)) && Tiled(w.g, w'.runs)
    requires var p := PageAt(w.g, r); p in w.runs && Trimmed(w.runs, w'.runs, p, keep, {}) && Used(w'.runs) == Used(w.runs) - {p}
    requires var p := PageAt(w.g, r); var k := Kept(w.runs[p], keep); w.touched !! PagesOf(Page(p.c, p.i + k), w.runs[p].len - k)
    ensures Good(w')
  {
    var p := PageAt(w.g, r);
    var k := Kept(w.runs[p], keep);
    var cleaned := PagesOf(Page(p.c, p.i + k), w.runs[p].len - k);
    ForgetSmall(w, w1, b, r);
    assert cleaned + {} == cleaned;
    RunsChange(w1, w', PagesOf(p, k), cleaned, {p});
  }

  lemma AllUnknown(w: World, w': World, stash: seq<Page>)
    requires w'.g == w.g && w'.ever == w.ever && w'.live == w.live && w'.hands == w.hands && forall p :: p in stash ==> Unknown(w, {p})
    ensures Unknown(w', set p | p in stash) && forall p :: p in stash ==> p !in w.live
  {
    var all := set p | p in stash;
    forall p | p in all ensures Unknown(w, {p}) {
      assert p in stash;
    }
  }

  lemma OneOfStash(w: World, t: Tid, p: Page)
    requires t in w.hands && p in w.hands[t].runs && Unknown(WithoutHand(w, t), set q | q in w.hands[t].runs)
    ensures Unknown(WithoutHand(w, t), {p})
  {
    var w1, all := WithoutHand(w, t), set q | q in w.hands[t].runs;
    assert p in all;
    forall u, q | u in w1.hands && q in w1.hands[u].runs ensures q !in {p} {
      assert q !in all;
    }
  }

  /** The first run of a purged stash goes back clean. */
  lemma Returned(w: World, w': World, t: Tid, p: Page, rest: seq<Page>)
    requires Good(w) && t in w.hands && w.hands[t] == Stash([p] + rest, true) && p in w.runs && Tiled(w.g, w'.runs)
    requires w' == w.(s := w'.s, runs := w'.runs, hands := w.hands[t := Stash(rest, true)], touched := Still(w.touched, w'.runs))
    requires Turned(w.runs, w'.runs, {}, PagesOf(p, w.runs[p].len)) && Used(w'.runs) == Used(w.runs) - {p}
    ensures Good(w')
  {
    ForgetHand(w, t);
    assert HandOk(w, w.hands[t]) && InHandOk(w, w.hands[t], p);
    var w1, h := WithoutHand(w, t), Stash(rest, true);
    var w2 := w1.(s := w'.s, runs := w'.runs, touched := w'.touched);
    OneOfStash(w, t, p);
    RunsChange(w1, w2, {}, PagesOf(p, w.runs[p].len), {p});
    RestInHand(w, w2, t, p, rest);
    assert w' == w2.(hands := w2.hands[t := h]);
    PutHand(w2, w', t, h);
  }

  /** What is left in the thread's hand is as it was. */
  lemma RestInHand(w: World, w2: World, t: Tid, p: Page, rest: seq<Page>)
    requires Good(w) && t in w.hands && w.hands[t] == Stash([p] + rest, true)
    requires Unknown(WithoutHand(w, t), set q | q in w.hands[t].runs)
    requires w2.g == w.g && w2.ever == w.ever && w2.live == w.live && w2.hands == w.hands - {t} && w2.touched <= w.touched
    requires Used(w2.runs) == Used(w.runs) - {p}
    ensures HandOk(w2, Stash(rest, true)) && Unknown(w2, set q | q in rest)
  {
    var st := w.hands[t].runs;
    assert HandOk(w, w.hands[t]) && rest == st[1..];
    forall q | q in rest ensures InHandOk(w2, Stash(rest, true), q) && Unknown(WithoutHand(w, t), {q}) {
      assert q in st && q != p && InHandOk(w, w.hands[t], q);
      assert q in Used(w.runs) && q in Used(w2.runs);
      OneOfStash(w, t, q);
    }
    AllUnknown(WithoutHand(w, t), w2, rest);
  }

  class System {
    const arena: Arena
    const bins: seq<AB.SmallBin>
    const regs: seq<RL.Regions>
    var hands: map<Tid, Hand>
    var live: set<Page>
    ghost var touched: set<Page>

    /** The states of the bins, and the regions their runs have ever handed out. */
    ghost var states: seq<AB.Bin>
    ghost var evers: seq<Memory>

    ghost function W(): World
      reads this, arena
    {
      World(arena.g, regs, arena.s, arena.runs, states, evers, hands, live, touched)
    }

    /** A bin's runs have the size and the regions that its layout says. */
    ghost predicate BinOk(i: nat)
      requires i < |bins| == |regs| == |arena.rp| == |states| == |evers|
      reads this`states, this`evers, bins[i]
    {
      && bins[i].Valid() && bins[i].b == states[i] && bins[i].ever == evers[i] && bins[i].nregs == regs[i].nregs
      && arena.rp[i] == regs[i].npages && 0 < regs[i].npages <= arena.g.MaxLen()
    }

    ghost predicate BinsOk()
      reads this`states, this`evers, bins
    {
      && |bins| == |regs| == |arena.rp| == |states| == |evers| && Distinct(bins)
      && forall i {:trigger BinOk(i)} :: 0 <= i < |bins| ==> BinOk(i)
    }

    ghost predicate Valid()
      reads this, arena, bins
    {
      arena.Valid() && BinsOk() && Good(W())
    }

    constructor (g: Geometry, lgDirtyMult: int, regs: seq<RL.Regions>)
      requires g.Ok() && forall i :: 0 <= i < |regs| ==> regs[i].Ok() && regs[i].nregs > 0 && 0 < regs[i].npages <= g.MaxLen()
      ensures Valid() && fresh(arena) && (forall i :: 0 <= i < |bins| ==> fresh(bins[i]))
      ensures this.regs == regs && touched == {} && hands == map[] && live == {}
    {
      this.regs := regs;
      var bs: seq<AB.SmallBin> := [];
      while |bs| < |regs|
        invariant |bs| <= |regs| && Distinct(bs)
        invariant forall i :: 0 <= i < |bs| ==> fresh(bs[i]) && bs[i].Valid() && bs[i].nregs == regs[i].nregs && bs[i].ever == map[]
      {
        var bin := new AB.SmallBin(regs[|bs|].nregs);
        bs := bs + [bin];
      }
      bins := bs;
      arena := new Arena(g, seq(|regs|, i requires 0 <= i < |regs| => regs[i].npages), lgDirtyMult);
      hands, live, touched := map[], {}, {};
      states, evers := seq(|bs|, i requires 0 <= i < |bs| reads bs => bs[i].b), seq(|bs|, i => map[]);
      new;
      assert forall i :: 0 <= i < |bins| ==> BinOk(i);
    }

    /** No free and clean page is among the touched ones. */
    lemma CleanIsUntouched(a: Page)
      requires Valid() && FreeAs(arena.runs, false, a)
      ensures a !in touched
    {
    }

    /** The touched pages that are still mapped, and `more`. */
    ghost predicate Touches(before: set<Page>, more: set<Page>)
      reads this, arena
    {
      touched == Still(before, arena.runs) + more
    }

    lemma StillAll()
      requires Valid()
      ensures Still(touched, arena.runs) == touched
    {
    }

    // ------------------------------------------------------------------------
    // Large runs
    // ------------------------------------------------------------------------

    /** arena_run_alloc: the new run is nobody's yet, and if it is clean nothing in it is touched. */
    method TakeRun(n: nat, kind: Kind, newChunk: Option<nat>) returns (r: Option<Page>)
      requires Valid() && 0 < n <= arena.g.MaxLen() && arena.NewOk(newChunk) && !kind.Free? && SmallKind(arena.rp, kind, n)
      modifies this`touched, arena
      ensures Valid() && Touches(old(touched), {})
      ensures r.None? <==> newChunk.None? && Exhausted(old(arena.s), old(arena.runs), n)
      ensures r.None? ==> arena.s == old(arena.s) && arena.runs == old(arena.runs)
      ensures r.Some? ==> RunTaken(old(W()), W(), r.value, n, kind) && Unknown(W(), {r.value})
      ensures r.Some? && !arena.runs[r.value].dirty ==> touched !! PagesOf(r.value, n)
    {
      if newChunk.Some? {
        arena.UnknownChunk(newChunk.value);
      }
      ghost var w := W();
      NewUntouched(arena.g, arena.runs, newChunk, touched);
      KnownAreUsed(w);
      r := arena.RunAlloc(n, kind, newChunk);
      touched := Still(touched, arena.runs);
      RunsChange(w, W(), {}, NewPages(arena.g, newChunk), {});
      if r.Some? && !arena.runs[r.value].dirty {
        CleanUntouched(w.runs, r.value, n, NewPages(arena.g, newChunk), w.touched);
      }
    }

    /** arena_malloc_large. */
    method MallocLarge(n: nat, newChunk: Option<nat>)
      requires Valid() && 0 < n <= arena.g.MaxLen() && arena.NewOk(newChunk)
      modifies this, arena
      ensures Valid() && MallocGoes(old(W()), W(), n, newChunk) && Touches(old(touched), {})
    {
      var r := TakeRun(n, Large, newChunk);
      if r.Some? {
        ghost var w := W();
        live := live + {r.value};
        assert r.value in Used(w.runs);
        Adopt(w, W(), r.value);
        assert RunTaken(old(W()), W(), r.value, n, Large);
      }
    }

    /** The user of a large run writes to one of its pages. */
    method Write(p: Page, a: Page)
      requires Valid() && p in live && a in PagesOf(p, arena.runs[p].len)
      modifies this`touched
      ensures Valid() && touched == old(touched) + {a} && W() == old(W()).(touched := touched)
    {
      ghost var w := W();
      ForgetLive(w, p);
      touched := touched + {a};
      forall i, r | 0 <= i < |w.ever| && r in w.ever[i] ensures PageAt(w.g, r) != p {
        assert SmallOk(w, i, r);
      }
      TouchIn(w, W(), p, {a});
    }

    /** arena_dalloc_large. */
    method FreeLarge(p: Page)
      requires Valid() && p in live
      modifies this, arena
      ensures Valid() && FreeGoes(old(W()), W(), p) && Touches(old(touched), {})
    {
      ghost var w := W();
      ForgetLive(w, p);
      live := live - {p};
      ghost var w1 := W();
      var d := arena.RunRelease(p, true);
      touched := Still(touched, arena.runs);
      RunsChange(w1, W(), PagesOf(p, w.runs[p].len), {}, {p});
    }

    /** arena_ralloc_large_shrink. */
    method ShrinkLarge(p: Page, newLen: nat)
      requires Valid() && p in live && 0 < newLen < arena.runs[p].len
      modifies this`touched, arena
      ensures Valid() && p in old(arena.runs) && ShrinkGoes(old(W()), W(), p, newLen) && Touches(old(touched), {})
    {
      ghost var w := W();
      ghost var tail := PagesOf(Page(p.c, p.i + newLen), arena.runs[p].len - newLen);
      var d := arena.CutTail(p, newLen, true);
      touched := Still(touched, arena.runs);
      assert p in Used(arena.runs);
      Resized(w, W(), p, tail);
    }

    /** arena_ralloc_large_grow. */
    method GrowLarge(p: Page, size: nat, extra: nat)
      requires Valid() && p in live && size + extra > arena.runs[p].len && size < WRAP && arena.g.np < WRAP
      modifies this`touched, arena
      ensures Valid() && p in old(arena.runs) && GrowGoes(old(W()), W(), p, size, extra) && Touches(old(touched), {})
    {
      ghost var w := W();
      var failed := arena.GrowLarge(p, size, extra);
      touched := Still(touched, arena.runs);
      assert p in Used(arena.runs);
      Resized(w, W(), p, {});
    }

    // ------------------------------------------------------------------------
    // Aligned runs
    // ------------------------------------------------------------------------

    /** arena_palloc: a run with room to spare; the lock may be dropped before each trim. */
    method BeginAlign(t: Tid, n: nat, al: nat, newChunk: Option<nat>)
      requires Valid() && t !in hands && n > 0 && al > 0 && n + al - 1 <= arena.g.MaxLen() && arena.NewOk(newChunk)
      modifies this, arena
      ensures Valid() && AlignBeginGoes(old(W()), W(), t, n, al, newChunk) && Touches(old(touched), {})
    {
      var r := TakeRun(n + al - 1, Large, newChunk);
      if r.Some? {
        var p := r.value;
        var h := Fit([p], Lead(arena.g, p, al), n, al);
        ghost var w := W();
        hands := hands[t := h];
        HoldRoom(old(W()), w, W(), t, p, n, al);
        assert RunTaken(old(W()), W(), p, n + al - 1, Large);
      }
    }

    /** arena_run_trim_head, if pages before the aligned address are to be trimmed. */
    method TrimAligned(t: Tid)
      requires Valid() && Fitting(W(), t)
      modifies this, arena
      ensures Valid() && old(Fitting(W(), t)) && AlignTrimGoes(old(W()), W(), t) && Touches(old(touched), {})
    {
      ghost var w := W();
      var h := hands[t];
      assert HandOk(w, h) && InHandOk(w, h, h.runs[0]);
      if h.lead == 0 {
        assert h.runs == [h.runs[0]] && hands[t := h] == hands;
        StillAll();
        return;
      }
      var p := h.runs[0];
      FirstEntry(arena.s.bits, arena.runs, p);
      var d := arena.CutHead(p, arena.s.bits[p].size - h.lead);
      var q := Page(p.c, p.i + h.lead);
      touched := Still(touched, arena.runs);
      hands := hands[t := Fit([q], 0, h.n, h.al)];
      HeadGone(w, W(), t, p, h, q);
    }

    /** arena_run_trim_tail on what is left over; the aligned run gets its user. */
    method EndAlign(t: Tid)
      requires Valid() && Fitting(W(), t) && hands[t].lead == 0
      modifies this, arena
      ensures Valid() && old(Fitting(W(), t)) && AlignEndGoes(old(W()), W(), t) && Touches(old(touched), {})
    {
      ghost var w := W();
      var h := hands[t];
      var p := h.runs[0];
      assert HandOk(w, h) && InHandOk(w, h, p);
      FirstEntry(arena.s.bits, arena.runs, p);
      var len := arena.s.bits[p].size;
      if h.n < len {
        CutSpare(t, p);
      } else {
        FewerFree(arena.runs, arena.runs);
        assert Used(arena.runs) == Used(w.runs)[p := PageRuns.Run(h.n, Large, w.runs[p].dirty)];
        StillAll();
        hands, live := hands - {t}, live + {p};
        HandedOver(w, W(), t, p, {}, {});
      }
    }

    /** What exceeds the request is given back, clean if the run was. */
    method CutSpare(t: Tid, p: Page)
      requires Valid() && Fitting(W(), t) && hands[t].runs == [p] && hands[t].lead == 0 && hands[t].n < arena.runs[p].len
      modifies this`touched, this`hands, this`live, arena
      ensures Valid() && Touches(old(touched), {}) && hands == old(hands) - {t} && live == old(live) + {p} && p in old(arena.runs)
      ensures Used(arena.runs) == Used(old(arena.runs))[p := PageRuns.Run(old(hands)[t].n, Large, old(arena.runs)[p].dirty)]
    {
      ghost var w := W();
      var h := hands[t];
      assert HandOk(w, h) && InHandOk(w, h, p);
      ghost var tail := PagesOf(Page(p.c, p.i + h.n), arena.runs[p].len - h.n);
      assert tail <= PagesOf(p, arena.runs[p].len);
      var d := arena.CutTail(p, h.n, false);
      assert p in Used(arena.runs);
      hands, live := hands - {t}, live + {p};
      touched := Still(touched, arena.runs);
      HandedOver(w, W(), t, p, Only(d, tail), Only(!d, tail));
    }

    // ------------------------------------------------------------------------
    // Small runs
    // ------------------------------------------------------------------------

    /** A run of a bin has the bin's number of pages. */
    lemma SmallLength(w: World, b: nat)
      requires arena.Valid() && BinsOk() && Good(w) && w.runs == arena.runs && w.regs == regs && b < |bins|
      ensures forall r :: r in w.ever[b] && PageAt(w.g, r) in w.runs ==> w.runs[PageAt(w.g, r)].len == w.regs[b].npages
    {
      assert BinOk(b);
      forall r | r in w.ever[b] && PageAt(w.g, r) in w.runs ensures w.runs[PageAt(w.g, r)].len == w.regs[b].npages {
        assert SmallOk(w, b, r);
      }
    }

    /** Only one bin has changed. */
    twostate lemma OneBin(b: nat)
      requires old(BinsOk()) && b < |bins| && bins[b].Valid() && forall j :: 0 <= j < |bins| && j != b ==> unchanged(bins[j])
      requires states == old(states)[b := bins[b].b] && evers == old(evers)[b := bins[b].ever]
      ensures BinsOk()
    {
      assert old(BinOk(b));
      forall i | 0 <= i < |bins| && i != b ensures BinOk(i) {
        assert old(BinOk(i));
      }
    }

    /** The pages of the region that bin `b` has answered with, if any, are touched. */
    ghost method Touch(w: World, b: nat, x: Option<AB.Region>)
      requires arena.Valid() && BinsOk() && Good(w) && b < |bins| == |w.ever| == |w.bins| && W() == w.(bins := states, ever := evers)
      requires x.None? ==> states[b].info == w.bins[b].info && evers == w.ever
      requires x.Some? ==> AB.HandedOut(w.bins[b].info, states[b].info, x.value) && x.value.r in w.ever[b]
                           && evers == w.ever[b := Recall(w.ever[b], x.value.r, w.ever[b][x.value.r] + {x.value.regind})]
      modifies this`touched
      ensures Valid() && NewRegion(w.bins[b].info, states[b].info) == x && touched == old(touched) + RegionTouched(w, W(), b)
    {
      ghost var w1 := W();
      touched := touched + RegionTouched(w, w1, b);
      SmallLength(w, b);
      Answer(w, w1, W(), b, x);
    }

    /** arena_malloc_small: the region handed out will be written to. */
    method MallocSmall(b: nat, t: Tid)
      requires Valid() && b < |states| && AB.PcOf(states[b], t) == AB.Idle
      modifies this`touched, this`states, this`evers, bins[b]
      ensures Valid() && SmallMallocGoes(old(W()), W(), b, t) && touched == old(touched) + RegionTouched(old(W()), W(), b)
    {
      ghost var w := W();
      assert BinOk(b);
      var ret := bins[b].Malloc(t);
      states, evers := states[b := bins[b].b], evers[b := bins[b].ever];
      OneBin(b);
      Touch(w, b, ret);
    }

    /** arena_bin_malloc_hard with the bin lock again. */
    method ResumeSmall(b: nat, t: Tid)
      requires Valid() && b < |states| && AB.PcOf(states[b], t).GotRun?
      modifies this`touched, this`states, this`evers, bins[b]
      ensures Valid() && SmallResumeGoes(old(W()), W(), b, t) && touched == old(touched) + RegionTouched(old(W()), W(), b)
    {
      ghost var w := W();
      assert BinOk(b);
      var ret := bins[b].Resume(t);
      states, evers := states[b := bins[b].b], evers[b := bins[b].ever];
      OneBin(b);
      Touch(w, b, ret);
    }

    /** The arena answers a thread that needs a run; the header of the new run is written. */
    method RunForSmall(b: nat, t: Tid, newChunk: Option<nat>)
      requires Valid() && b < |states| && AB.PcOf(states[b], t) == AB.NeedRun && arena.NewOk(newChunk)
      modifies this`touched, this`states, this`evers, arena, bins[b]
      ensures Valid() && SmallRunGoes(old(W()), W(), b, t, newChunk)
      ensures Touches(old(touched), HeaderTouched(old(W()), W(), b, t))
    {
      assert BinOk(b);
      ghost var w := W();
      var r := TakeRun(regs[b].npages, Small(b), newChunk);
      ghost var w1 := W();
      if r.None? {
        RefuseRun(b, t);
        RunRefused(w, w1, W(), b, t);
      } else {
        assert r.value in Used(arena.runs);
        AdoptRun(b, t, r.value);
        RunAdopted(w, w1, W(), b, t, r.value, newChunk);
      }
    }

    method RefuseRun(b: nat, t: Tid)
      requires Valid() && b < |states| && AB.PcOf(states[b], t) == AB.NeedRun
      modifies this`states, this`evers, bins[b]
      ensures Valid() && evers == old(evers) && states == old(states)[b := old(states)[b].(pcs := old(states)[b].pcs[t := AB.GotRun(None)])]
    {
      ghost var w := W();
      assert BinOk(b);
      bins[b].ArenaAnswers(t, None);
      states, evers := states[b := bins[b].b], evers[b := bins[b].ever];
      OneBin(b);
      assert evers == w.ever;
      BinsChange(w, W());
    }

    method AdoptRun(b: nat, t: Tid, p: Page)
      requires Valid() && b < |states| && AB.PcOf(states[b], t) == AB.NeedRun && Unknown(W(), {p})
      requires p in arena.runs && arena.runs[p] == PageRuns.Run(regs[b].npages, Small(b), arena.runs[p].dirty)
      requires !arena.runs[p].dirty ==> touched !! PagesOf(p, regs[b].npages)
      modifies this`touched, this`states, this`evers, bins[b]
      ensures Valid() && arena.g.np > 0 && PageAt(arena.g, Address(arena.g, p)) == p
      ensures touched == old(touched) + HeaderPages(regs[b], p)
      ensures states == old(states)[b := AB.Fresh(old(states)[b], t, Address(arena.g, p), regs[b].nregs)]
      ensures evers == old(evers)[b := Recall(old(evers)[b], Address(arena.g, p), {})]
    {
      assert RunOk(arena.g, arena.runs, p) && BinOk(b);
      PageAtAddress(arena.g, p);
      ghost var w := W();
      var id := Address(arena.g, p);
      assert id !in w.ever[b];
      bins[b].ArenaAnswers(t, Some(id));
      states, evers := states[b := bins[b].b], evers[b := bins[b].ever];
      OneBin(b);
      ghost var w1 := W();
      AdoptSmall(w, w1, b, id);
      touched := touched + HeaderPages(regs[b], p);
      WriteHeader(w1, W(), b, id);
    }

    /** arena_dalloc_bin. */
    method FreeSmall(b: nat, t: Tid, x: AB.Region)
      requires Valid() && b < |states| && AB.PcOf(states[b], t) == AB.Idle && x.r in states[b].info && x.regind in states[b].info[x.r].alloc
      modifies this`states, this`evers, bins[b]
      ensures Valid() && x.r in old(states)[b].info && SmallFreeGoes(old(W()), W(), b, t, x)
    {
      ghost var w := W();
      assert BinOk(b);
      bins[b].Free(t, x);
      states, evers := states[b := bins[b].b], evers[b := bins[b].ever];
      OneBin(b);
      assert evers == w.ever;
      BinsChange(w, W());
    }

    /**
     * arena_dalloc_bin_run: the pages behind all regions ever handed out go back clean if the run
     * was clean, and none of them has been touched.
     */
    method ReleaseSmall(b: nat, t: Tid)
      requires Valid() && b < |states| && AB.PcOf(states[b], t).Releasing?
      modifies this`touched, this`states, this`evers, arena, bins[b]
      ensures Valid() && SmallReleaseGoes(old(W()), W(), b, t) && Touches(old(touched), {})
    {
      ghost var w := W();
      assert BinOk(b);
      var r := bins[b].b.pcs[t].r;
      var nextind := bins[b].Released(t);
      states, evers := states[b := bins[b].b], evers[b := bins[b].ever];
      OneBin(b);
      GiveBackRun(b, r, nextind, w);
    }

    /** The part of arena_dalloc_bin_run under the arena lock. */
    method GiveBackRun(b: nat, r: nat, nextind: nat, ghost w: World)
      requires arena.Valid() && BinsOk() && Good(w) && b < |bins| == |w.ever| && r in w.ever[b] && W() == WithoutSmall(w, b, r).(bins := states)
      requires nextind <= regs[b].nregs && forall i :: i in w.ever[b][r] ==> i < nextind
      modifies this`touched, arena
      ensures Valid() && Touches(old(touched), {}) && w.g.np > 0 && Used(arena.runs) == Used(old(arena.runs)) - {PageAt(w.g, r)}
    {
      ghost var w1 := W();
      var p := PageAt(arena.g, r);
      assert SmallOk(w, b, r) && BinOk(b);
      TrimUntouched(w, b, r, nextind);
      var keep := regs[b].Keep(nextind);
      arena.ReleaseBinRun(p, keep);
      touched := Still(touched, arena.runs);
      RunGone(w, w1, W(), b, r, keep);
    }

    // ------------------------------------------------------------------------
    // Purging
    // ------------------------------------------------------------------------

    /** arena_chunk_purge up to where it drops the lock. */
    method BeginPurge(t: Tid, c: nat)
      requires Valid() && t !in hands && c in arena.s.chunksDirty && c in arena.s.chunkDirty && arena.s.chunkDirty[c] > 0
      modifies this, arena
      ensures Valid() && c in old(arena.s).chunkDirty && PurgeBeginGoes(old(W()), W(), t, c) && Touches(old(touched), {})
    {
      var stash := TakeStash(c);
      ghost var w := W();
      var h := Stash(stash, false);
      forall p | p in stash ensures InHandOk(w, h, p) {
      }
      hands := hands[t := h];
      PutHand(w, W(), t, h);
    }

    /** The dirty runs of a chunk are put to use; nobody has them yet. */
    method TakeStash(c: nat) returns (stash: seq<Page>)
      requires Valid() && c in arena.s.chunksDirty && c in arena.s.chunkDirty && arena.s.chunkDirty[c] > 0
      modifies this`touched, arena
      ensures Valid() && Touches(old(touched), {}) && Stashed(arena.runs, Used(old(arena.runs)), stash)
      ensures WereDirty(old(arena.runs), StashPages(arena.runs, stash)) && arena.s.ndirty == old(arena.s).ndirty - old(arena.s).chunkDirty[c]
      ensures forall p :: p in stash ==> p !in live
      ensures Unknown(W(), set p | p in stash)
    {
      ghost var w := W();
      KnownAreUsed(w);
      stash := arena.PurgeBegin(c);
      touched := Still(touched, arena.runs);
      RunsChange(w, W(), {}, {}, {});
      forall p | p in stash ensures Unknown(w, {p}) {
        assert p !in Used(w.runs);
      }
      AllUnknown(w, W(), stash);
    }

    /** Without the lock the runs in hand are purged. */
    method Advise(t: Tid)
      requires Valid() && t in hands && hands[t].Stash? && !hands[t].purged
      modifies this
      ensures Valid() && PurgeAdviseGoes(old(W()), W(), t) && old(Advisable(W(), t))
      ensures touched == old(touched) - StashPages(arena.runs, old(hands)[t].runs)
    {
      ghost var w := W();
      assert HandOk(w, w.hands[t]);
      forall p | p in hands[t].runs ensures p in arena.runs && arena.runs[p].kind.Large? {
        assert InHandOk(w, w.hands[t], p);
      }
      ghost var purged := arena.PurgeStash(hands[t].runs);
      hands := hands[t := hands[t].(purged := true)];
      touched := touched - purged;
      PurgeKeeps(w, W(), t);
    }

    /** With the lock again, one run after the other goes back clean; the lock may be dropped between. */
    method ReturnOne(t: Tid)
      requires Valid() && t in hands && hands[t].Stash? && hands[t].purged
      modifies this`touched, this`hands, arena
      ensures Valid() && PurgeReturnGoes(old(W()), W(), t) && Touches(old(touched), {})
    {
      ghost var w := W();
      var st := hands[t].runs;
      if st == [] {
        ForgetHand(w, t);
        hands := hands - {t};
        StillAll();
        return;
      }
      var p := st[0];
      assert HandOk(w, w.hands[t]) && InHandOk(w, w.hands[t], p);
      var d := arena.RunRelease(p, false);
      touched := Still(touched, arena.runs);
      hands := hands[t := Stash(st[1..], true)];
      assert st == [p] + st[1..];
      Returned(w, W(), t, p, st[1..]);
    }

    // ------------------------------------------------------------------------
    // Schedules
    // ------------------------------------------------------------------------

    /** One event, if it can happen. */
    method Step(e: Event)
      requires Valid()
      modifies this, arena, bins
      ensures Valid() && Goes(old(W()), W(), e)
    {
      var enabled := CanHappen(e);
      if !enabled {
        Idles(e, W());
      } else if e.LargeMalloc? || e.TouchLarge? || e.LargeFree? {
        LargeStep(e);
      } else if e.LargeShrink? || e.LargeGrow? {
        ResizeStep(e);
      } else if e.AlignBegins? || e.AlignTrims? || e.AlignEnds? {
        AlignStep(e);
      } else if e.PurgeBegins? || e.PurgeAdvises? || e.PurgeReturns? {
        PurgeStep(e);
      } else if e.SmallMalloc? || e.SmallResume? {
        SmallStep(e);
      } else if e.SmallFree? {
        SmallFreeStep(e);
      } else {
        RunStep(e);
      }
    }

    /** Whether the event can happen, as the page map and the bins tell. */
    method CanHappen(e: Event) returns (yes: bool)
      requires Valid()
      ensures yes == Enabled(e, W())
    {
      var g, s := arena.g, arena.s;
      forall b | 0 <= b < |bins| ensures bins[b].b == states[b] {
        assert BinOk(b);
      }
      match e {
        case LargeMalloc(n, newChunk) => yes := 0 < n <= g.MaxLen() && arena.NewOk(newChunk);
        case TouchLarge(p, a) => yes := false; if p in live { FirstEntry(s.bits, arena.runs, p); yes := Spans(p, s.bits[p].size, a); }
        case LargeFree(p) => yes := p in live;
        case LargeShrink(p, newLen) => yes := false; if p in live { FirstEntry(s.bits, arena.runs, p); yes := 0 < newLen < s.bits[p].size; }
        case LargeGrow(p, size, extra) =>
          yes := false;
          if p in live { FirstEntry(s.bits, arena.runs, p); yes := size + extra > s.bits[p].size && size < WRAP && g.np < WRAP; }
        case AlignBegins(t, n, al, newChunk) => yes := t !in hands && n > 0 && al > 0 && n + al - 1 <= g.MaxLen() && arena.NewOk(newChunk);
        case AlignTrims(t) => HandFits(t); yes := t in hands && hands[t].Fit?;
        case AlignEnds(t) => HandFits(t); yes := t in hands && hands[t].Fit? && hands[t].lead == 0;
        case SmallMalloc(b, t) => yes := b < |bins| && AB.PcOf(bins[b].b, t) == AB.Idle;
        case SmallRun(b, t, newChunk) => yes := b < |bins| && AB.PcOf(bins[b].b, t) == AB.NeedRun && arena.NewOk(newChunk);
        case SmallResume(b, t) => yes := b < |bins| && AB.PcOf(bins[b].b, t).GotRun?;
        case SmallFree(b, t, x) =>
          yes := b < |bins| && AB.PcOf(bins[b].b, t) == AB.Idle && x.r in bins[b].b.info && x.regind in bins[b].b.info[x.r].alloc;
        case SmallRelease(b, t) => yes := b < |bins| && AB.PcOf(bins[b].b, t).Releasing?;
        case PurgeBegins(t, c) => yes := t !in hands && c in s.chunksDirty && c in s.chunkDirty && s.chunkDirty[c] > 0;
        case PurgeAdvises(t) => yes := t in hands && hands[t].Stash? && !hands[t].purged;
        case PurgeReturns(t) => yes := t in hands && hands[t].Stash? && hands[t].purged;
      }
    }

    lemma HandFits(t: Tid)
      requires Valid()
      ensures Fitting(W(), t) <==> t in hands && hands[t].Fit?
    {
      var w := W();
      if t in hands {
        assert HandOk(w, w.hands[t]);
      }
    }

    method LargeStep(e: Event)
      requires Valid() && Enabled(e, W()) && (e.LargeMalloc? || e.TouchLarge? || e.LargeFree?)
      modifies this, arena
      ensures Valid() && Goes(old(W()), W(), e)
    {
      StillAll();
      match e {
        case LargeMalloc(n, newChunk) => MallocLarge(n, newChunk);
        case TouchLarge(p, a) => Write(p, a);
        case LargeFree(p) => FreeLarge(p);
      }
    }

    method ResizeStep(e: Event)
      requires Valid() && Enabled(e, W()) && (e.LargeShrink? || e.LargeGrow?)
      modifies this, arena
      ensures Valid() && Goes(old(W()), W(), e)
    {
      match e {
        case LargeShrink(p, newLen) => ShrinkLarge(p, newLen);
        case LargeGrow(p, size, extra) => GrowLarge(p, size, extra);
      }
    }

    method AlignStep(e: Event)
      requires Valid() && Enabled(e, W()) && (e.AlignBegins? || e.AlignTrims? || e.AlignEnds?)
      modifies this, arena
      ensures Valid() && Goes(old(W()), W(), e)
    {
      match e {
        case AlignBegins(t, n, al, newChunk) => BeginAlign(t, n, al, newChunk);
        case AlignTrims(t) => TrimAligned(t);
        case AlignEnds(t) => EndAlign(t);
      }
    }

    method SmallStep(e: Event)
      requires Valid() && Enabled(e, W()) && (e.SmallMalloc? || e.SmallResume?)
      modifies this`touched, this`states, this`evers, bins
      ensures Valid() && Goes(old(W()), W(), e)
    {
      StillAll();
      match e {
        case SmallMalloc(b, t) => MallocSmall(b, t);
        case SmallResume(b, t) => ResumeSmall(b, t);
      }
    }

    method SmallFreeStep(e: Event)
      requires Valid() && Enabled(e, W()) && e.SmallFree?
      modifies this`states, this`evers, bins
      ensures Valid() && Goes(old(W()), W(), e)
    {
      StillAll();
      FreeSmall(e.b, e.t, e.x);
    }

    method RunStep(e: Event)
      requires Valid() && Enabled(e, W()) && (e.SmallRun? || e.SmallRelease?)
      modifies this`touched, this`states, this`evers, arena, bins
      ensures Valid() && Goes(old(W()), W(), e)
    {
      match e {
        case SmallRun(b, t, newChunk) => RunForSmall(b, t, newChunk);
        case SmallRelease(b, t) => ReleaseSmall(b, t);
      }
    }

    method PurgeStep(e: Event)
      requires Valid() && Enabled(e, W()) && (e.PurgeBegins? || e.PurgeAdvises? || e.PurgeReturns?)
      modifies this, arena
      ensures Valid() && Goes(old(W()), W(), e)
    {
      StillAll();
      match e {
        case PurgeBegins(t, c) => BeginPurge(t, c);
        case PurgeAdvises(t) => Advise(t);
        case PurgeReturns(t) => ReturnOne(t);
      }
    }

    /**
     * Any schedule: the arena is well-formed at every point where a lock is free, purging threads
     * included; and no page that is free and clean was touched by any event of the schedule, or
     * before it, unless it has been unmapped or purged since.
     */
    method Run(script: seq<Event>) returns (ghost trace: seq<World>)
      requires Valid()
      modifies this, arena, bins
      ensures Valid() && Leads(Goes, trace, script, |script|, old(W()), W())
      ensures forall a, i :: FreeAs(arena.runs, false, a) ==> !TouchedSince(trace, script, i, |script|, a)
      ensures forall a :: FreeAs(arena.runs, false, a) ==> !TouchedFirst(trace, script, |script|, a)
    {
      trace := [W()];
      for i := 0 to |script|
        invariant Valid() && Leads(Goes, trace, script, i, old(W()), W())
      {
        Step(script[i]);
        TraceGrows(Goes, trace, W(), script);
        trace := trace + [W()];
      }
      forall a | FreeAs(arena.runs, false, a) ensures !TouchedFirst(trace, script, |script|, a) && forall i :: !TouchedSince(trace, script, i, |script|, a) {
        CleanIsUntouched(a);
        TouchedMeans(trace, script, |script|, a);
      }
    }
  }
}
