/**
 * What makes clean pages clean: no page that is free and clean has been touched since it was
 * mapped or last purged.  Here is the state of an arena with its bins, the users of its large
 * runs, and threads that purge or allocate aligned runs; what holds of it at every point where
 * the locks are free; and what keeps that.
 */
module CleanPages {
  import opened Basics
  import opened Align
  import opened PageRuns
  import opened PageStates
  import opened ArenaState
  import opened ArenaOps
  import opened Arena
  import AB = ArenaBins
  import RL = RunLayout

  type Tid = nat

  /** The page at a page number. */
  function PageAt(g: Geometry, r: nat): Page
    requires g.np > 0
  {
    Page(r / g.np, r % g.np)
  }

  lemma PageAtAddress(g: Geometry, p: Page)
    requires p.i < g.np
    ensures PageAt(g, Address(g, p)) == p
  {
    DivMod(Address(g, p), g.np, p.c, p.i);
  }

  // --------------------------------------------------------------------------
  // Touched pages
  // --------------------------------------------------------------------------

  /** A touched page is mapped, and if it is free it is dirty. */
  ghost predicate Sound(runs: Runs, touched: set<Page>) {
    forall a :: a in touched ==> Mapped(runs, a) && !FreeAs(runs, false, a)
  }

  /** What is left of the touched pages: those still mapped. */
  ghost function Still(touched: set<Page>, runs: Runs): set<Page> {
    set a | a in touched && Mapped(runs, a)
  }

  lemma KeepSound(runs: Runs, runs': Runs, dirtied: set<Page>, cleaned: set<Page>, touched: set<Page>)
    requires Sound(runs, touched) && Turned(runs, runs', dirtied, cleaned) && touched !! cleaned
    ensures Sound(runs', Still(touched, runs'))
  {
  }

  /** Some byte of page `k` of a run is header, or in a region ever handed out or its redzone. */
  ghost predicate TouchedPage(reg: RL.Regions, ever: set<nat>, k: int)
    requires reg.page > 0
  {
    exists byte: nat :: byte / reg.page == k && reg.Touched(ever, byte)
  }

  lemma TouchedMore(reg: RL.Regions, ever: set<nat>, ever': set<nat>, k: int)
    requires reg.page > 0 && ever <= ever' && TouchedPage(reg, ever, k)
    ensures TouchedPage(reg, ever', k)
  {
    var byte: nat :| byte / reg.page == k && reg.Touched(ever, byte);
    assert reg.Touched(ever', byte);
  }

  /** The pages of the run at `p` that handing out region `i` touches. */
  ghost function RegionPages(reg: RL.Regions, p: Page, i: nat): set<Page>
    requires reg.page > 0
  {
    set k | 0 <= k < reg.npages && RegionMeets(reg, i, k) :: Page(p.c, p.i + k)
  }

  ghost predicate RegionMeets(reg: RL.Regions, i: nat, k: nat)
    requires reg.page > 0
  {
    exists byte: nat :: byte / reg.page == k && reg.InRegion(i, byte)
  }

  /** The pages of the run at `p` that its header touches. */
  ghost function HeaderPages(reg: RL.Regions, p: Page): set<Page>
    requires reg.page > 0
  {
    set k | 0 <= k < reg.npages && TouchedPage(reg, {}, k) :: Page(p.c, p.i + k)
  }

  lemma RegionTouches(reg: RL.Regions, p: Page, i: nat, ever: set<nat>, a: Page)
    requires reg.page > 0 && i in ever && a in RegionPages(reg, p, i)
    ensures Spans(p, reg.npages, a) && TouchedPage(reg, ever, a.i - p.i)
  {
    var k :| 0 <= k < reg.npages && RegionMeets(reg, i, k) && Page(p.c, p.i + k) == a;
    var byte: nat :| byte / reg.page == k && reg.InRegion(i, byte);
    assert reg.Touched(ever, byte);
  }

  lemma HeaderTouches(reg: RL.Regions, p: Page, ever: set<nat>, a: Page)
    requires reg.page > 0 && a in HeaderPages(reg, p)
    ensures Spans(p, reg.npages, a) && TouchedPage(reg, ever, a.i - p.i)
  {
    TouchedMore(reg, {}, ever, a.i - p.i);
  }

  // --------------------------------------------------------------------------
  // The state
  // --------------------------------------------------------------------------

  /**
   * What a thread has in hand while it does not hold the arena lock: in arena_chunk_purge the
   * stashed runs, purged or not; in arena_palloc a run from which `lead` pages, and what exceeds
   * `n` pages after that, are still to be trimmed.
   */
  datatype Hand =
    | Stash(runs: seq<Page>, purged: bool)
    | Fit(runs: seq<Page>, lead: nat, n: nat, al: nat)

  /** For each run of a bin the regions ever handed out. */
  type Memory = map<nat, set<nat>>

  function Recall(m: Memory, r: nat, regions: set<nat>): Memory {
    m[r := regions]
  }

  datatype World = World(
    g: Geometry,
    regs: seq<RL.Regions>,
    s: State,
    runs: Runs,
    bins: seq<AB.Bin>,
    ever: seq<Memory>,
    hands: map<Tid, Hand>,
    live: set<Page>,
    touched: set<Page>)

  // --------------------------------------------------------------------------
  // The invariant
  // --------------------------------------------------------------------------

  ghost predicate SmallOk(w: World, i: nat, r: nat)
    requires w.g.np > 0
  {
    var p := PageAt(w.g, r);
    p in w.runs && w.runs[p].kind == Small(i) && Address(w.g, p) == r
  }

  /** In a small run that was clean, only pages that its regions or header explain are touched. */
  ghost predicate Explained(w: World, i: nat, r: nat)
    requires w.g.np > 0 && i < |w.regs| && w.regs[i].page > 0 && i < |w.ever| && r in w.ever[i]
  {
    var p := PageAt(w.g, r);
    p in w.runs && !w.runs[p].dirty ==> forall a :: a in w.touched && Spans(p, w.runs[p].len, a) ==> TouchedPage(w.regs[i], w.ever[i][r], a.i - p.i)
  }

  ghost predicate RegsOk(w: World) {
    && w.g.np > 0 && |w.ever| == |w.regs| == |w.bins|
    && forall i :: 0 <= i < |w.regs| ==> w.regs[i].Ok()
  }

  ghost predicate SmallsOk(w: World) {
    && RegsOk(w)
    && (forall i, r {:trigger SmallOk(w, i, r)} :: 0 <= i < |w.ever| && r in w.ever[i] ==> SmallOk(w, i, r))
    && (forall i, r {:trigger Explained(w, i, r)} :: 0 <= i < |w.ever| && r in w.ever[i] ==> Explained(w, i, r))
  }

  /** The run in hand is in use, nobody uses it, and if it is clean and done with it is untouched. */
  ghost predicate InHandOk(w: World, h: Hand, p: Page) {
    && p in w.runs && w.runs[p].kind.Large? && p !in w.live
    && (h.Stash? ==> !w.runs[p].dirty)
    && (!w.runs[p].dirty && (h.Stash? ==> h.purged) ==> PagesOf(p, w.runs[p].len) !! w.touched)
  }

  ghost predicate HandOk(w: World, h: Hand) {
    && Distinct(h.runs)
    && (forall p {:trigger InHandOk(w, h, p)} :: p in h.runs ==> InHandOk(w, h, p))
    && (h.Fit? ==> |h.runs| == 1 && h.n > 0 && h.al > 0 && h.runs[0] in w.runs && h.lead + h.n <= w.runs[h.runs[0]].len
                   && Multiple(Address(w.g, h.runs[0]) + h.lead, h.al))
  }

  ghost predicate HandsApart(hands: map<Tid, Hand>, t: Tid, u: Tid)
    requires t in hands && u in hands
  {
    t != u ==> forall p :: p in hands[t].runs ==> p !in hands[u].runs
  }

  ghost predicate HandsOk(w: World) {
    && (forall t {:trigger HandOk(w, w.hands[t])} :: t in w.hands ==> HandOk(w, w.hands[t]))
    && (forall t, u {:trigger HandsApart(w.hands, t, u)} :: t in w.hands && u in w.hands ==> HandsApart(w.hands, t, u))
  }

  ghost predicate LiveOk(w: World) {
    forall p :: p in w.live ==> p in w.runs && w.runs[p].kind.Large?
  }

  ghost predicate Good(w: World) {
    Tiled(w.g, w.runs) && Sound(w.runs, w.touched) && LiveOk(w) && SmallsOk(w) && HandsOk(w)
  }

  // --------------------------------------------------------------------------
  // Frames
  // --------------------------------------------------------------------------

  /** A small run that is known after a step was known before, is the same and remembers as much. */
  ghost predicate KeptSmall(w: World, w': World, i: nat, r: nat)
    requires w.g.np > 0 && i < |w.ever| && i < |w'.ever| && r in w'.ever[i]
  {
    var p := PageAt(w.g, r);
    && r in w.ever[i] && w.ever[i][r] <= w'.ever[i][r]
    && (p in w.runs && !w.runs[p].kind.Free? ==> p in w'.runs && w'.runs[p] == w.runs[p])
  }

  lemma SmallsFrame(w: World, w': World)
    requires SmallsOk(w) && w'.g == w.g && w'.regs == w.regs && |w'.ever| == |w.ever| && |w'.bins| == |w.bins| && w'.touched <= w.touched
    requires forall i, r {:trigger KeptSmall(w, w', i, r)} :: 0 <= i < |w'.ever| && r in w'.ever[i] ==> KeptSmall(w, w', i, r)
    ensures SmallsOk(w')
  {
    forall i, r | 0 <= i < |w'.ever| && r in w'.ever[i] ensures SmallOk(w', i, r) && Explained(w', i, r) {
      assert KeptSmall(w, w', i, r);
      assert SmallOk(w, i, r) && Explained(w, i, r);
      var p := PageAt(w.g, r);
      forall a | a in w'.touched && Spans(p, w'.runs[p].len, a) && !w'.runs[p].dirty ensures TouchedPage(w.regs[i], w'.ever[i][r], a.i - p.i) {
        TouchedMore(w.regs[i], w.ever[i][r], w'.ever[i][r], a.i - p.i);
      }
    }
  }

  /** What is in a hand stays there and is the same. */
  ghost predicate KeptHand(w: World, w': World, t: Tid)
    requires t in w'.hands
  {
    && t in w.hands && w'.hands[t] == w.hands[t]
    && forall p :: p in w.hands[t].runs ==> p !in w'.live && (p in w.runs && !w.runs[p].kind.Free? ==> p in w'.runs && w'.runs[p] == w.runs[p])
  }

  lemma HandsFrame(w: World, w': World)
    requires HandsOk(w) && w'.g == w.g && w'.touched <= w.touched
    requires forall t {:trigger KeptHand(w, w', t)} :: t in w'.hands ==> KeptHand(w, w', t)
    ensures HandsOk(w')
  {
    forall t | t in w'.hands ensures HandOk(w', w'.hands[t]) {
      assert KeptHand(w, w', t) && HandOk(w, w.hands[t]);
      forall p | p in w'.hands[t].runs ensures InHandOk(w', w'.hands[t], p) {
        assert InHandOk(w, w.hands[t], p);
      }
      assert w'.hands[t].Fit? ==> w.hands[t].runs[0] in w.hands[t].runs && InHandOk(w, w.hands[t], w.hands[t].runs[0]);
    }
    forall t, u | t in w'.hands && u in w'.hands ensures HandsApart(w'.hands, t, u) {
      assert KeptHand(w, w', t) && KeptHand(w, w', u) && HandsApart(w.hands, t, u);
    }
  }

  // --------------------------------------------------------------------------
  // Giving up and taking over
  // --------------------------------------------------------------------------

  /** Nobody has these runs. */
  ghost predicate Unknown(w: World, gone: set<Page>) {
    && (w.g.np > 0 ==> forall i, r :: 0 <= i < |w.ever| && r in w.ever[i] ==> PageAt(w.g, r) !in gone)
    && w.live !! gone && forall t, p :: t in w.hands && p in w.hands[t].runs ==> p !in gone
  }

  /** Whoever has a run, it is in use. */
  lemma KnownAreUsed(w: World)
    requires Good(w)
    ensures forall p :: p !in Used(w.runs) ==> Unknown(w, {p})
  {
    assert forall p :: p in w.live ==> p in Used(w.runs);
    forall i, r | 0 <= i < |w.ever| && r in w.ever[i] ensures PageAt(w.g, r) in Used(w.runs) {
      assert SmallOk(w, i, r);
    }
    forall t, p | t in w.hands && p in w.hands[t].runs ensures p in Used(w.runs) {
      assert HandOk(w, w.hands[t]) && InHandOk(w, w.hands[t], p);
    }
  }

  function WithoutLive(w: World, p: Page): World {
    w.(live := w.live - {p})
  }

  lemma ForgetLive(w: World, p: Page)
    requires Good(w) && p in w.live
    ensures Good(WithoutLive(w, p)) && Unknown(WithoutLive(w, p), {p})
  {
    var w' := WithoutLive(w, p);
    SmallsFrame(w, w');
    forall t | t in w'.hands ensures KeptHand(w, w', t) {
      assert HandOk(w, w.hands[t]);
      forall q | q in w.hands[t].runs ensures q !in w.live { assert InHandOk(w, w.hands[t], q); }
    }
    HandsFrame(w, w');
    forall i, r | 0 <= i < |w.ever| && r in w.ever[i] ensures PageAt(w.g, r) != p {
      assert SmallOk(w, i, r);
    }
    forall t, q | t in w.hands && q in w.hands[t].runs ensures q != p {
      assert HandOk(w, w.hands[t]) && InHandOk(w, w.hands[t], q);
    }
  }

  function WithoutHand(w: World, t: Tid): World {
    w.(hands := w.hands - {t})
  }

  lemma ForgetHand(w: World, t: Tid)
    requires Good(w) && t in w.hands
    ensures Good(WithoutHand(w, t)) && Unknown(WithoutHand(w, t), set p | p in w.hands[t].runs)
  {
    var w' := WithoutHand(w, t);
    SmallsFrame(w, w');
    forall u | u in w'.hands ensures KeptHand(w, w', u) {
      assert HandOk(w, w.hands[u]);
      forall q | q in w.hands[u].runs ensures q !in w.live { assert InHandOk(w, w.hands[u], q); }
    }
    HandsFrame(w, w');
    assert HandOk(w, w.hands[t]);
    forall p | p in w.hands[t].runs ensures p !in w.live && p in w.runs && w.runs[p].kind.Large? {
      assert InHandOk(w, w.hands[t], p);
    }
    forall i, r | 0 <= i < |w.ever| && r in w.ever[i] ensures PageAt(w.g, r) !in w.hands[t].runs {
      assert SmallOk(w, i, r);
    }
    forall u, p | u in w'.hands && p in w'.hands[u].runs ensures p !in w.hands[t].runs {
      assert HandsApart(w.hands, u, t);
    }
  }

  function WithoutSmall(w: World, i: nat, r: nat): World
    requires i < |w.ever|
  {
    w.(ever := w.ever[i := w.ever[i] - {r}])
  }

  lemma ForgetSmall(w: World, w': World, i: nat, r: nat)
    requires Good(w) && i < |w.ever| && r in w.ever[i] && w' == WithoutSmall(w, i, r).(bins := w'.bins) && |w'.bins| == |w.bins|
    ensures Good(w') && Unknown(w', {PageAt(w.g, r)})
  {
    assert forall j, q :: 0 <= j < |w'.ever| && q in w'.ever[j] ==> q in w.ever[j] && w'.ever[j][q] == w.ever[j][q];
    SmallsFrame(w, w');
    KeepHands(w, w');
    SmallIsApart(w, i, r);
  }

  /** Only the bins have changed. */
  lemma KeepHands(w: World, w': World)
    requires HandsOk(w) && w' == w.(bins := w'.bins, ever := w'.ever)
    ensures HandsOk(w')
  {
    forall t | t in w'.hands ensures KeptHand(w, w', t) {
      assert HandOk(w, w.hands[t]);
      forall q | q in w.hands[t].runs ensures q !in w.live { assert InHandOk(w, w.hands[t], q); }
    }
    HandsFrame(w, w');
  }

  /** Nobody else has a small run. */
  lemma SmallIsApart(w: World, i: nat, r: nat)
    requires Good(w) && i < |w.ever| && r in w.ever[i]
    ensures SmallOk(w, i, r) && Unknown(WithoutSmall(w, i, r), {PageAt(w.g, r)})
    ensures forall j, q :: 0 <= j < |w.ever| && q in w.ever[j] && PageAt(w.g, q) == PageAt(w.g, r) ==> j == i && q == r
  {
    var p, w' := PageAt(w.g, r), WithoutSmall(w, i, r);
    assert SmallOk(w, i, r);
    forall j, q | 0 <= j < |w.ever| && q in w.ever[j] && PageAt(w.g, q) == p ensures j == i && q == r {
      assert SmallOk(w, j, q);
    }
    forall j, q | 0 <= j < |w'.ever| && q in w'.ever[j] ensures PageAt(w.g, q) != p {
      assert q in w.ever[j];
    }
    forall t, q | t in w.hands && q in w.hands[t].runs ensures q != p {
      assert HandOk(w, w.hands[t]) && InHandOk(w, w.hands[t], q);
    }
  }

  /** A large run gets a user. */
  lemma Adopt(w: World, w': World, p: Page)
    requires Good(w) && w' == w.(live := w.live + {p}) && p in w.runs && w.runs[p].kind.Large? && Unknown(w, {p})
    ensures Good(w')
  {
    SmallsFrame(w, w');
    forall t | t in w'.hands ensures KeptHand(w, w', t) {
      assert HandOk(w, w.hands[t]);
      forall q | q in w.hands[t].runs ensures q !in w'.live { assert InHandOk(w, w.hands[t], q); }
    }
    HandsFrame(w, w');
  }

  /** A thread takes runs in its hand that nobody has. */
  lemma PutHand(w: World, w': World, t: Tid, h: Hand)
    requires Good(w) && t !in w.hands && w' == w.(hands := w.hands[t := h]) && HandOk(w, h) && Unknown(w, set p | p in h.runs)
    ensures Good(w')
  {
    SmallsFrame(w, w');
    forall u | u in w'.hands ensures HandOk(w', w'.hands[u]) {
      assert HandOk(w, w'.hands[u]);
      forall p | p in w'.hands[u].runs ensures InHandOk(w', w'.hands[u], p) { assert InHandOk(w, w'.hands[u], p); }
    }
    var mine := set q | q in h.runs;
    forall u, p | u in w.hands && p in w.hands[u].runs ensures p !in h.runs {
      assert p !in mine;
    }
    forall u, v | u in w'.hands && v in w'.hands ensures HandsApart(w'.hands, u, v) {
      assert u != t && v != t ==> HandsApart(w.hands, u, v);
    }
  }

  /** A bin gets a new small run: if it is clean, none of its pages has been touched. */
  lemma AdoptSmall(w: World, w': World, i: nat, r: nat)
    requires Good(w) && i < |w.ever| && w' == w.(bins := w'.bins, ever := w.ever[i := Recall(w.ever[i], r, {})]) && |w'.bins| == |w.bins|
    requires SmallOk(w, i, r)
    requires var p := PageAt(w.g, r); !w.runs[p].dirty ==> w.touched !! PagesOf(p, w.runs[p].len)
    ensures Good(w')
  {
    forall j, q | 0 <= j < |w'.ever| && q in w'.ever[j] ensures SmallOk(w', j, q) && Explained(w', j, q) {
      if j != i || q != r {
        assert SmallOk(w, j, q) && Explained(w, j, q);
      }
    }
    KeepHands(w, w');
  }

  /** A bin's memory of what was handed out grows. */
  lemma EverGrows(w: World, w': World, i: nat, r: nat, regind: nat)
    requires Good(w) && i < |w.ever| && r in w.ever[i] && |w'.bins| == |w.bins|
    requires w' == w.(bins := w'.bins, ever := w.ever[i := Recall(w.ever[i], r, w.ever[i][r] + {regind})])
    ensures Good(w')
  {
    assert forall j, q :: 0 <= j < |w'.ever| && q in w'.ever[j] ==> q in w.ever[j] && w.ever[j][q] <= w'.ever[j][q];
    SmallsFrame(w, w');
    KeepHands(w, w');
  }

  lemma BinsChange(w: World, w': World)
    requires Good(w) && w' == w.(bins := w'.bins) && |w'.bins| == |w.bins|
    ensures Good(w')
  {
    SmallsFrame(w, w');
    KeepHands(w, w');
  }

  // --------------------------------------------------------------------------
  // Runs and touched pages change
  // --------------------------------------------------------------------------

  /** The runs change, but the runs in use that anyone has stay. */
  lemma RunsChange(w: World, w': World, dirtied: set<Page>, cleaned: set<Page>, gone: set<Page>)
    requires Good(w) && Tiled(w.g, w'.runs) && w' == w.(s := w'.s, runs := w'.runs, touched := Still(w.touched, w'.runs))
    requires Turned(w.runs, w'.runs, dirtied, cleaned) && w.touched !! cleaned && Unknown(w, gone)
    requires forall p :: p in Used(w.runs) && p !in gone ==> p in Used(w'.runs) && Used(w'.runs)[p] == Used(w.runs)[p]
    ensures Good(w')
  {
    assert forall p :: p in Used(w.runs) && p !in gone ==> p in w'.runs && w'.runs[p] == w.runs[p];
    KeepSound(w.runs, w'.runs, dirtied, cleaned, w.touched);
    forall i, r | 0 <= i < |w'.ever| && r in w'.ever[i] ensures KeptSmall(w, w', i, r) {
      assert PageAt(w.g, r) in w.runs && !w.runs[PageAt(w.g, r)].kind.Free? ==> PageAt(w.g, r) in Used(w.runs);
    }
    SmallsFrame(w, w');
    forall p | p in w'.live ensures p in w'.runs && w'.runs[p].kind.Large? {
      assert p in Used(w.runs);
    }
    forall t | t in w'.hands ensures KeptHand(w, w', t) {
      assert HandOk(w, w.hands[t]);
      forall p | p in w.hands[t].runs ensures p !in w.live && (p in w.runs ==> p in w'.runs && w'.runs[p] == w.runs[p]) {
        assert InHandOk(w, w.hands[t], p);
        assert p in Used(w.runs);
      }
    }
    HandsFrame(w, w');
  }

  /** Pages of a run in use are touched; those of a small run are explained. */
  lemma TouchIn(w: World, w': World, p: Page, more: set<Page>)
    requires Good(w) && w' == w.(touched := w.touched + more) && p in Used(w.runs) && more <= PagesOf(p, w.runs[p].len)
    requires forall t :: t in w.hands ==> p !in w.hands[t].runs
    requires forall i, r :: 0 <= i < |w.ever| && r in w.ever[i] && PageAt(w.g, r) == p ==> forall a :: a in more ==> TouchedPage(w.regs[i], w.ever[i][r], a.i - p.i)
    ensures Good(w')
  {
    forall a | a in more ensures Mapped(w.runs, a) && !FreeAs(w.runs, false, a) {
      assert InRun(w.runs, p, a);
      InUseNotFree(w.g, w.runs, p, false, a);
    }
    forall i, r | 0 <= i < |w'.ever| && r in w'.ever[i] ensures SmallOk(w', i, r) && Explained(w', i, r) {
      assert SmallOk(w, i, r) && Explained(w, i, r);
      TouchElsewhere(w, p, PageAt(w.g, r), more);
    }
    forall t | t in w'.hands ensures HandOk(w', w'.hands[t]) {
      assert HandOk(w, w.hands[t]);
      forall q | q in w.hands[t].runs ensures InHandOk(w', w'.hands[t], q) {
        assert InHandOk(w, w.hands[t], q);
        TouchElsewhere(w, p, q, more);
      }
    }
    forall t, u | t in w'.hands && u in w'.hands ensures HandsApart(w'.hands, t, u) {
      assert HandsApart(w.hands, t, u);
    }
  }

  lemma TouchElsewhere(w: World, p: Page, q: Page, more: set<Page>)
    requires Tiled(w.g, w.runs) && p in w.runs && q in w.runs && more <= PagesOf(p, w.runs[p].len)
    ensures q != p ==> more !! PagesOf(q, w.runs[q].len)
  {
    forall a | a in more && a in PagesOf(q, w.runs[q].len) ensures q == p {
      assert InRun(w.runs, p, a) && InRun(w.runs, q, a);
      OneRun(w.g, w.runs, p, q, a);
    }
  }

  /** Fewer pages count as touched. */
  lemma LessTouched(w: World, w': World)
    requires Good(w) && w' == w.(touched := w'.touched) && w'.touched <= w.touched
    ensures Good(w')
  {
    SmallsFrame(w, w');
    forall t | t in w'.hands ensures KeptHand(w, w', t) {
      assert HandOk(w, w.hands[t]);
      forall q | q in w.hands[t].runs ensures q !in w.live { assert InHandOk(w, w.hands[t], q); }
    }
    HandsFrame(w, w');
  }

  /** The stash of a thread is purged: its pages count as untouched. */
  lemma PurgeKeeps(w: World, w': World, t: Tid)
    requires Good(w) && t in w.hands && w.hands[t].Stash? && (forall p :: p in w.hands[t].runs ==> p in w.runs)
    requires w' == w.(hands := w.hands[t := w.hands[t].(purged := true)], touched := w.touched - StashPages(w.runs, w.hands[t].runs))
    ensures Good(w')
  {
    var h := w.hands[t].(purged := true);
    var w1 := WithoutHand(w, t);
    ForgetHand(w, t);
    var w2 := w1.(touched := w'.touched);
    LessTouched(w1, w2);
    assert HandOk(w, w.hands[t]);
    forall p | p in h.runs ensures InHandOk(w2, h, p) {
      assert InHandOk(w, w.hands[t], p);
      InStash(w.runs, h.runs, p);
    }
    assert w' == w2.(hands := w2.hands[t := h]);
    PutHand(w2, w', t, h);
  }

  lemma {:induction false} InStash(runs: Runs, stash: seq<Page>, p: Page)
    requires (forall q :: q in stash ==> q in runs) && p in stash
    ensures PagesOf(p, runs[p].len) <= StashPages(runs, stash)
  {
    if p != stash[0] {
      assert p in stash[1..];
      InStash(runs, stash[1..], p);
    }
  }

  // --------------------------------------------------------------------------
  // Which pages have not been touched
  // --------------------------------------------------------------------------

  /** Newly mapped pages have not been touched. */
  lemma NewUntouched(g: Geometry, runs: Runs, newChunk: Option<nat>, touched: set<Page>)
    requires Sound(runs, touched) && (newChunk.Some? ==> NoRunsIn(runs, newChunk.value))
    ensures touched !! NewPages(g, newChunk)
  {
    forall a | a in touched ensures a !in NewPages(g, newChunk) {
      var p :| InRun(runs, p, a);
    }
  }

  /** Pages that were free and clean, or not mapped, have not been touched. */
  lemma CleanUntouched(runs0: Runs, p: Page, n: nat, w: set<Page>, touched: set<Page>)
    requires Sound(runs0, touched) && CameFrom(runs0, p, n, false, w) && touched !! w
    ensures touched !! PagesOf(p, n)
  {
    forall a | a in touched ensures a !in PagesOf(p, n) {
      assert a in PagesOf(p, n) ==> FreeAs(runs0, false, a) || a in w;
    }
  }

  /** The pages that arena_dalloc_bin_run gives back clean have not been touched. */
  lemma TrimUntouched(w: World, i: nat, r: nat, nextind: nat)
    requires Good(w) && i < |w.ever| && r in w.ever[i] && nextind <= w.regs[i].nregs && (forall k :: k in w.ever[i][r] ==> k < nextind)
    requires PageAt(w.g, r) in w.runs && w.runs[PageAt(w.g, r)].len == w.regs[i].npages
    ensures w.regs[i].Past(nextind) >= 0 && w.regs[i].Keep(nextind) > 0
    ensures var p, keep := PageAt(w.g, r), w.regs[i].Keep(nextind); var k := Kept(w.runs[p], keep);
      w.touched !! PagesOf(Page(p.c, p.i + k), w.runs[p].len - k)
  {
    var p, reg := PageAt(w.g, r), w.regs[i];
    RL.CleanTrimSound(reg, w.ever[i][r], nextind, 0);
    var keep := reg.Keep(nextind);
    var k := Kept(w.runs[p], keep);
    assert Explained(w, i, r);
    forall a | a in w.touched ensures a !in PagesOf(Page(p.c, p.i + k), w.runs[p].len - k) {
      if k < w.runs[p].len && Spans(p, w.runs[p].len, a) {
        var byte: nat :| byte / reg.page == a.i - p.i && reg.Touched(w.ever[i][r], byte);
        RL.CleanTrimSound(reg, w.ever[i][r], nextind, byte);
      }
    }
  }
}
