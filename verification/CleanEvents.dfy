/**
 * The events of an arena shared by threads, each one critical section or a step between two;
 * what each does to the state; and which pages it touches or purges.
 */
module CleanEvents {
  import opened Basics
  import opened Traces
  import opened Align
  import opened PageRuns
  import opened PageStates
  import opened ArenaState
  import opened ArenaOps
  import opened Arena
  import opened CleanPages
  import AB = ArenaBins

  datatype Event =
    | LargeMalloc(n: nat, newChunk: Option<nat>)
    | TouchLarge(p: Page, a: Page)
    | LargeFree(p: Page)
    | LargeShrink(p: Page, newLen: nat)
    | LargeGrow(p: Page, size: nat, extra: nat)
    | AlignBegins(t: Tid, n: nat, al: nat, newChunk: Option<nat>)
    | AlignTrims(t: Tid)
    | AlignEnds(t: Tid)
    | SmallMalloc(b: nat, t: Tid)
    | SmallRun(b: nat, t: Tid, newChunk: Option<nat>)
    | SmallResume(b: nat, t: Tid)
    | SmallFree(b: nat, t: Tid, x: AB.Region)
    | SmallRelease(b: nat, t: Tid)
    | PurgeBegins(t: Tid, c: nat)
    | PurgeAdvises(t: Tid)
    | PurgeReturns(t: Tid)

  // --------------------------------------------------------------------------
  // Pages that an event touches or purges
  // --------------------------------------------------------------------------

  /** The region that is in use now and was not before, if there is one. */
  ghost function NewRegion(info: map<AB.RunId, AB.Header>, info': map<AB.RunId, AB.Header>): Option<AB.Region> {
    if exists x :: AB.HandedOut(info, info', x) then var x :| AB.HandedOut(info, info', x); Some(x) else None
  }

  lemma OneRegion(info: map<AB.RunId, AB.Header>, info': map<AB.RunId, AB.Header>, x: AB.Region)
    requires AB.HandedOut(info, info', x)
    ensures NewRegion(info, info') == Some(x)
  {
    var y := NewRegion(info, info').value;
    assert AB.HandedOut(info, info', y);
    assert y.regind in info'[y.r].alloc && y.regind !in info[y.r].alloc;
    assert x.r == y.r;
    assert y.regind in info[x.r].alloc + {x.regind};
  }

  lemma NoRegion(info: map<AB.RunId, AB.Header>, info': map<AB.RunId, AB.Header>)
    requires info' == info
    ensures NewRegion(info, info') == None
  {
    forall x ensures !AB.HandedOut(info, info', x) {
      assert x.r in info ==> x.regind in info[x.r].alloc + {x.regind};
    }
  }

  /** The pages of the region that bin `b` has handed out. */
  ghost function RegionTouched(w: World, w': World, b: nat): set<Page> {
    if b < |w.bins| && b < |w'.bins| && b < |w.regs| && w.g.np > 0 && w.regs[b].page > 0 then
      var x := NewRegion(w.bins[b].info, w'.bins[b].info);
      if x.Some? then RegionPages(w.regs[b], PageAt(w.g, x.value.r), x.value.regind) else {}
    else {}
  }

  /** The header pages of the run that a thread has got for bin `b`. */
  ghost function HeaderTouched(w: World, w': World, b: nat, t: Tid): set<Page> {
    if b < |w.bins| && b < |w'.bins| && b < |w.regs| && w.g.np > 0 && w.regs[b].page > 0
       && AB.PcOf(w.bins[b], t) == AB.NeedRun && AB.PcOf(w'.bins[b], t).GotRun? && AB.PcOf(w'.bins[b], t).run.Some?
    then HeaderPages(w.regs[b], PageAt(w.g, AB.PcOf(w'.bins[b], t).run.value))
    else {}
  }

  /** The pages touched between the states before and after the event. */
  ghost function TouchedBy(e: Event, w: World, w': World): set<Page> {
    match e
    case TouchLarge(p, a) => if p in w.live && p in w.runs && Spans(p, w.runs[p].len, a) then {a} else {}
    case SmallMalloc(b, _) => RegionTouched(w, w', b)
    case SmallResume(b, _) => RegionTouched(w, w', b)
    case SmallRun(b, t, _) => HeaderTouched(w, w', b, t)
    case _ => {}
  }

  ghost predicate Advisable(w: World, t: Tid) {
    t in w.hands && w.hands[t].Stash? && !w.hands[t].purged && forall p :: p in w.hands[t].runs ==> p in w.runs
  }

  /** The pages purged by the event. */
  ghost function PurgedBy(e: Event, w: World): set<Page> {
    if e.PurgeAdvises? && Advisable(w, e.t) then StashPages(w.runs, w.hands[e.t].runs) else {}
  }

  /** The touched pages after the event: those still mapped and not purged, and the new ones. */
  ghost function TouchedAfter(e: Event, w: World, w': World): set<Page> {
    Still(w.touched, w'.runs) - PurgedBy(e, w) + TouchedBy(e, w, w')
  }

  // --------------------------------------------------------------------------
  // What an event does
  // --------------------------------------------------------------------------

  predicate ChunkIsNew(w: World, newChunk: Option<nat>) {
    newChunk.Some? ==> newChunk.value !in w.s.chunkDirty
  }

  /** Apart from the arena, only what users and threads have of it has changed. */
  ghost predicate ArenaOnly(w: World, w': World) {
    w' == w.(s := w'.s, runs := w'.runs, hands := w'.hands, live := w'.live, touched := w'.touched)
  }

  /** Only bin `b` has changed. */
  ghost predicate BinOnly(w: World, w': World, b: nat)
    requires b < |w.bins| == |w.ever|
  {
    && |w'.bins| == |w.bins| && |w'.ever| == |w.ever|
    && w' == w.(bins := w.bins[b := w'.bins[b]], ever := w.ever[b := w'.ever[b]], touched := w'.touched)
  }

  /** A run of `n` pages at `p`, not in use before, is in use now. */
  ghost predicate RunTaken(w: World, w': World, p: Page, n: nat, kind: Kind) {
    p !in Used(w.runs) && p in w'.runs && Used(w'.runs) == Used(w.runs)[p := Run(n, kind, w'.runs[p].dirty)]
  }

  ghost predicate MallocGoes(w: World, w': World, n: nat, newChunk: Option<nat>) {
    && ArenaOnly(w, w') && w'.hands == w.hands
    && (if newChunk.None? && Exhausted(w.s, w.runs, n) then w'.live == w.live && w'.s == w.s && w'.runs == w.runs
        else exists p :: RunTaken(w, w', p, n, Large) && w'.live == w.live + {p})
  }

  ghost predicate FreeGoes(w: World, w': World, p: Page) {
    ArenaOnly(w, w') && w'.hands == w.hands && w'.live == w.live - {p} && Used(w'.runs) == Used(w.runs) - {p}
  }

  ghost predicate ShrinkGoes(w: World, w': World, p: Page, newLen: nat)
    requires p in w.runs
  {
    && ArenaOnly(w, w') && w'.hands == w.hands && w'.live == w.live
    && Used(w'.runs) == Used(w.runs)[p := Run(newLen, Large, w.runs[p].dirty)]
  }

  ghost predicate GrowGoes(w: World, w': World, p: Page, size: nat, extra: nat)
    requires p in w.runs
  {
    && ArenaOnly(w, w') && w'.hands == w.hands && w'.live == w.live
    && (if CanGrow(w.runs, p, size) then Used(w'.runs) == Used(w.runs)[p := Grown(w.runs, p, size + extra)] else w'.runs == w.runs)
  }

  ghost predicate AlignBeginGoes(w: World, w': World, t: Tid, n: nat, al: nat, newChunk: Option<nat>)
    requires n > 0 && al > 0
  {
    && ArenaOnly(w, w') && w'.live == w.live
    && (if newChunk.None? && Exhausted(w.s, w.runs, n + al - 1) then w'.hands == w.hands && w'.s == w.s && w'.runs == w.runs
        else exists p :: RunTaken(w, w', p, n + al - 1, Large) && w'.hands == w.hands[t := Fit([p], Lead(w.g, p, al), n, al)])
  }

  ghost predicate AlignTrimGoes(w: World, w': World, t: Tid)
    requires Fitting(w, t)
  {
    var h := w.hands[t];
    var p := h.runs[0];
    var q := Page(p.c, p.i + h.lead);
    && ArenaOnly(w, w') && w'.live == w.live && w'.hands == w.hands[t := Fit([q], 0, h.n, h.al)]
    && (h.lead > 0 ==> h.lead < w.runs[p].len && Used(w'.runs) == (Used(w.runs) - {p})[q := Run(w.runs[p].len - h.lead, Large, w.runs[p].dirty)])
    && (h.lead == 0 ==> w'.runs == w.runs)
  }

  ghost predicate AlignEndGoes(w: World, w': World, t: Tid)
    requires Fitting(w, t)
  {
    var h := w.hands[t];
    var p := h.runs[0];
    && ArenaOnly(w, w') && w'.live == w.live + {p} && w'.hands == w.hands - {t} && Multiple(Address(w.g, p), h.al)
    && Used(w'.runs) == Used(w.runs)[p := Run(h.n, Large, w.runs[p].dirty)]
  }

  predicate Fitting(w: World, t: Tid) {
    t in w.hands && w.hands[t].Fit? && |w.hands[t].runs| == 1 && w.hands[t].runs[0] in w.runs && w.hands[t].al > 0
  }

  /** The region handed out, if any, is remembered. */
  ghost predicate Remembers(w: World, w': World, b: nat)
    requires b < |w.bins| == |w.ever| == |w'.bins| == |w'.ever|
  {
    var x := NewRegion(w.bins[b].info, w'.bins[b].info);
    && (x.None? ==> w'.ever[b] == w.ever[b])
    && (x.Some? ==> x.value.r in w.ever[b] && w'.ever[b] == Recall(w.ever[b], x.value.r, w.ever[b][x.value.r] + {x.value.regind}))
  }

  ghost predicate SmallMallocGoes(w: World, w': World, b: nat, t: Tid)
    requires b < |w.bins| == |w.ever| == |w.regs|
  {
    && BinOnly(w, w', b) && Remembers(w, w', b)
    && AB.MallocGoes(w.regs[b].nregs, w.bins[b], w'.bins[b], t, NewRegion(w.bins[b].info, w'.bins[b].info))
  }

  ghost predicate SmallResumeGoes(w: World, w': World, b: nat, t: Tid)
    requires b < |w.bins| == |w.ever| == |w.regs| && AB.PcOf(w.bins[b], t).GotRun?
  {
    && BinOnly(w, w', b) && Remembers(w, w', b)
    && AB.ResumeGoes(w.regs[b].nregs, w.bins[b], w'.bins[b], t, NewRegion(w.bins[b].info, w'.bins[b].info))
  }

  ghost predicate SmallRunGoes(w: World, w': World, b: nat, t: Tid, newChunk: Option<nat>)
    requires b < |w.bins| == |w.ever| && b < |w.regs|
  {
    && |w'.bins| == |w.bins| && |w'.ever| == |w.ever|
    && w' == w.(s := w'.s, runs := w'.runs, bins := w.bins[b := w'.bins[b]], ever := w.ever[b := w'.ever[b]], touched := w'.touched)
    && AB.PcOf(w'.bins[b], t).GotRun?
    && var run := AB.PcOf(w'.bins[b], t).run;
      if newChunk.None? && Exhausted(w.s, w.runs, w.regs[b].npages) then
        run.None? && w'.s == w.s && w'.runs == w.runs && w'.ever == w.ever && w'.bins[b] == w.bins[b].(pcs := w.bins[b].pcs[t := AB.GotRun(None)])
      else
        && run.Some? && w.g.np > 0 && RunTaken(w, w', PageAt(w.g, run.value), w.regs[b].npages, Small(b))
        && w'.bins[b] == AB.Fresh(w.bins[b], t, run.value, w.regs[b].nregs) && w'.ever[b] == Recall(w.ever[b], run.value, {})
  }

  ghost predicate SmallFreeGoes(w: World, w': World, b: nat, t: Tid, x: AB.Region)
    requires b < |w.bins| == |w.ever| == |w.regs| && x.r in w.bins[b].info
  {
    && BinOnly(w, w', b) && w'.ever == w.ever && (w.bins[b].runcur.Some? ==> w.bins[b].runcur.value in w.bins[b].info)
    && AB.FreeGoes(w.regs[b].nregs, w.bins[b], w'.bins[b], t, x)
  }

  ghost predicate SmallReleaseGoes(w: World, w': World, b: nat, t: Tid)
    requires b < |w.bins| == |w.ever| && AB.PcOf(w.bins[b], t).Releasing?
  {
    var r := AB.PcOf(w.bins[b], t).r;
    && |w'.bins| == |w.bins| && w.g.np > 0
    && w' == w.(s := w'.s, runs := w'.runs, bins := w.bins[b := AB.Gone(w.bins[b], t, r)], ever := w.ever[b := w.ever[b] - {r}], touched := w'.touched)
    && Used(w'.runs) == Used(w.runs) - {PageAt(w.g, r)}
  }

  ghost predicate PurgeBeginGoes(w: World, w': World, t: Tid, c: nat)
    requires c in w.s.chunkDirty
  {
    && ArenaOnly(w, w') && w'.live == w.live && t in w'.hands && w'.hands[t].Stash? && !w'.hands[t].purged
    && w'.hands == w.hands[t := w'.hands[t]] && Stashed(w'.runs, Used(w.runs), w'.hands[t].runs)
    && WereDirty(w.runs, StashPages(w'.runs, w'.hands[t].runs)) && w'.s.ndirty == w.s.ndirty - w.s.chunkDirty[c]
  }

  ghost predicate PurgeAdviseGoes(w: World, w': World, t: Tid)
    requires t in w.hands && w.hands[t].Stash?
  {
    w' == w.(hands := w.hands[t := w.hands[t].(purged := true)], touched := w'.touched)
  }

  ghost predicate PurgeReturnGoes(w: World, w': World, t: Tid)
    requires t in w.hands && w.hands[t].Stash?
  {
    var st := w.hands[t].runs;
    && ArenaOnly(w, w') && w'.live == w.live
    && (if st == [] then w'.hands == w.hands - {t} && w'.runs == w.runs
        else w'.hands == w.hands[t := Stash(st[1..], true)] && Used(w'.runs) == Used(w.runs) - {st[0]})
  }

  /** The event can happen. */
  predicate Enabled(e: Event, w: World) {
    match e
    case LargeMalloc(n, newChunk) => 0 < n <= w.g.MaxLen() && ChunkIsNew(w, newChunk)
    case TouchLarge(p, a) => p in w.live && p in w.runs && Spans(p, w.runs[p].len, a)
    case LargeFree(p) => p in w.live
    case LargeShrink(p, newLen) => p in w.live && p in w.runs && 0 < newLen < w.runs[p].len
    case LargeGrow(p, size, extra) => p in w.live && p in w.runs && size + extra > w.runs[p].len && size < WRAP && w.g.np < WRAP
    case AlignBegins(t, n, al, newChunk) => t !in w.hands && n > 0 && al > 0 && n + al - 1 <= w.g.MaxLen() && ChunkIsNew(w, newChunk)
    case AlignTrims(t) => Fitting(w, t)
    case AlignEnds(t) => Fitting(w, t) && w.hands[t].lead == 0
    case SmallMalloc(b, t) => b < |w.bins| == |w.ever| == |w.regs| && AB.PcOf(w.bins[b], t) == AB.Idle
    case SmallRun(b, t, newChunk) => b < |w.bins| == |w.ever| == |w.regs| && AB.PcOf(w.bins[b], t) == AB.NeedRun && ChunkIsNew(w, newChunk)
    case SmallResume(b, t) => b < |w.bins| == |w.ever| == |w.regs| && AB.PcOf(w.bins[b], t).GotRun?
    case SmallFree(b, t, x) =>
      b < |w.bins| == |w.ever| == |w.regs| && AB.PcOf(w.bins[b], t) == AB.Idle && x.r in w.bins[b].info && x.regind in w.bins[b].info[x.r].alloc
    case SmallRelease(b, t) => b < |w.bins| == |w.ever| && AB.PcOf(w.bins[b], t).Releasing?
    case PurgeBegins(t, c) => t !in w.hands && c in w.s.chunksDirty && c in w.s.chunkDirty && w.s.chunkDirty[c] > 0
    case PurgeAdvises(t) => t in w.hands && w.hands[t].Stash? && !w.hands[t].purged
    case PurgeReturns(t) => t in w.hands && w.hands[t].Stash? && w.hands[t].purged
  }

  ghost predicate Effect(e: Event, w: World, w': World)
    requires Enabled(e, w)
  {
    match e
    case LargeMalloc(n, newChunk) => MallocGoes(w, w', n, newChunk)
    case TouchLarge(_, _) => w' == w.(touched := w'.touched)
    case LargeFree(p) => FreeGoes(w, w', p)
    case LargeShrink(p, newLen) => ShrinkGoes(w, w', p, newLen)
    case LargeGrow(p, size, extra) => GrowGoes(w, w', p, size, extra)
    case AlignBegins(t, n, al, newChunk) => AlignBeginGoes(w, w', t, n, al, newChunk)
    case AlignTrims(t) => AlignTrimGoes(w, w', t)
    case AlignEnds(t) => AlignEndGoes(w, w', t)
    case SmallMalloc(b, t) => SmallMallocGoes(w, w', b, t)
    case SmallRun(b, t, newChunk) => SmallRunGoes(w, w', b, t, newChunk)
    case SmallResume(b, t) => SmallResumeGoes(w, w', b, t)
    case SmallFree(b, t, x) => SmallFreeGoes(w, w', b, t, x)
    case SmallRelease(b, t) => SmallReleaseGoes(w, w', b, t)
    case PurgeBegins(t, c) => PurgeBeginGoes(w, w', t, c)
    case PurgeAdvises(t) => PurgeAdviseGoes(w, w', t)
    case PurgeReturns(t) => PurgeReturnGoes(w, w', t)
  }

  /** The step from `w` to `w'`: the event's effect if it can happen, and else none. */
  ghost predicate Goes(w: World, w': World, e: Event) {
    && (if Enabled(e, w) then Effect(e, w, w') else w' == w)
    && w'.touched == TouchedAfter(e, w, w')
  }

  /** An event that cannot happen touches and purges nothing. */
  lemma Idles(e: Event, w: World)
    requires Good(w) && !Enabled(e, w)
    ensures Goes(w, w, e)
  {
    assert Still(w.touched, w.runs) == w.touched;
    assert TouchedBy(e, w, w) == {} by {
      if (e.SmallMalloc? || e.SmallResume?) && e.b < |w.bins| {
        NoRegion(w.bins[e.b].info, w.bins[e.b].info);
      }
    }
    assert PurgedBy(e, w) == {};
  }

  // --------------------------------------------------------------------------
  // Schedules
  // --------------------------------------------------------------------------

  /** The page is touched by event `i`. */
  ghost predicate TouchesAt(trace: seq<World>, script: seq<Event>, i: nat, a: Page) {
    i + 1 < |trace| <= |script| + 1 && a in TouchedBy(script[i], trace[i], trace[i + 1])
  }

  /** The page is neither unmapped nor purged by event `i`. */
  ghost predicate StaysAt(trace: seq<World>, script: seq<Event>, i: nat, a: Page) {
    i + 1 < |trace| <= |script| + 1 && Mapped(trace[i + 1].runs, a) && a !in PurgedBy(script[i], trace[i])
  }

  /** Event `i` touched the page, and since then, up to state `n`, it was neither unmapped nor purged. */
  ghost predicate TouchedSince(trace: seq<World>, script: seq<Event>, i: nat, n: nat, a: Page) {
    i < n && TouchesAt(trace, script, i, a) && forall j {:trigger StaysAt(trace, script, j, a)} :: i < j < n ==> StaysAt(trace, script, j, a)
  }

  /** The page was touched at the start and has been neither unmapped nor purged up to state `n`. */
  ghost predicate TouchedFirst(trace: seq<World>, script: seq<Event>, n: nat, a: Page)
    requires |trace| > 0
  {
    a in trace[0].touched && forall j {:trigger StaysAt(trace, script, j, a)} :: 0 <= j < n ==> StaysAt(trace, script, j, a)
  }

  lemma StepTouches(trace: seq<World>, script: seq<Event>, n: nat, a: Page)
    requires IsTrace(Goes, trace, script) && 0 < n < |trace|
    ensures a in trace[n].touched <==> (a in trace[n - 1].touched && StaysAt(trace, script, n - 1, a)) || TouchesAt(trace, script, n - 1, a)
  {
    assert GoesAt(Goes, trace, script, n - 1);
  }

  /** The touched pages of a state are those touched on the way there, and since then not unmapped or purged. */
  lemma {:induction false} TouchedMeans(trace: seq<World>, script: seq<Event>, n: nat, a: Page)
    requires IsTrace(Goes, trace, script) && n < |trace|
    ensures a in trace[n].touched <==> TouchedFirst(trace, script, n, a) || exists i :: TouchedSince(trace, script, i, n, a)
  {
    if n > 0 {
      TouchedMeans(trace, script, n - 1, a);
      StepTouches(trace, script, n, a);
      StepFirst(trace, script, n, a);
      forall i: nat | i < n - 1 ensures TouchedSince(trace, script, i, n, a) <==> TouchedSince(trace, script, i, n - 1, a) && StaysAt(trace, script, n - 1, a) {
        StepSince(trace, script, i, n, a);
      }
      assert TouchedSince(trace, script, n - 1, n, a) <==> TouchesAt(trace, script, n - 1, a);
      if a in trace[n].touched && !TouchedFirst(trace, script, n, a) && !TouchesAt(trace, script, n - 1, a) {
        var i: nat :| TouchedSince(trace, script, i, n - 1, a);
        assert TouchedSince(trace, script, i, n, a);
      }
      if i: nat :| TouchedSince(trace, script, i, n, a) {
        assert i < n - 1 ==> TouchedSince(trace, script, i, n - 1, a);
      }
    }
  }

  lemma StepFirst(trace: seq<World>, script: seq<Event>, n: nat, a: Page)
    requires 0 < n < |trace|
    ensures TouchedFirst(trace, script, n, a) <==> TouchedFirst(trace, script, n - 1, a) && StaysAt(trace, script, n - 1, a)
  {
  }

  lemma StepSince(trace: seq<World>, script: seq<Event>, i: nat, n: nat, a: Page)
    requires i + 1 < n < |trace|
    ensures TouchedSince(trace, script, i, n, a) <==> TouchedSince(trace, script, i, n - 1, a) && StaysAt(trace, script, n - 1, a)
  {
  }
}
