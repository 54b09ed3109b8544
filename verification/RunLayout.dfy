/**
 * The layout of small runs: how large a run is, how many regions it has and where they are;
 * which of its pages were touched; and how many pages a chunk's header takes.
 */
module RunLayout {
  import opened Basics
  import opened Align
  import opened Bitmap

  const RUN_MAX_OVRHD: nat := 0x3d
  const RUN_MAX_OVRHD_RELAX: nat := 0x1800
  const RUN_BFP_SCALE: nat := 4096
  const SIZEOF_LONG: nat := 8
  const QUANTUM: nat := 16

  /** What a bin's layout depends on; redzones are off. */
  datatype Config = Config(page: nat, header: nat, interval: nat, maxclass: nat, prof: bool) {
    ghost predicate Ok() {
      page > 0 && header > 0 && interval > 0 && maxclass + page < TWO_32
    }

    /** Where the bitmap begins. */
    function BitmapOffset(): nat {
      AlignUp(header, SIZEOF_LONG)
    }

    /** Where the profiling contexts begin, if there are any. */
    function CtxOffset(n: nat): nat {
      if prof then AlignUp(BitmapOffset() + SIZEOF_LONG * Groups(n), QUANTUM) else 0
    }

    /** The size of the run header for `n` regions. */
    function HdrSize(n: nat): nat {
      if prof then CtxOffset(n) + n * 8 else BitmapOffset() + SIZEOF_LONG * Groups(n)
    }

    /** Header and regions do not overlap. */
    predicate Fits(run: nat, n: nat) {
      HdrSize(n) + n * interval <= run
    }
  }

  lemma AlignUpMonotone(x: nat, y: nat, al: nat)
    requires al > 0 && x <= y
    ensures x <= AlignUp(x, al) <= AlignUp(y, al)
  {
    AlignUpIsLeast(y, al, 0);
    AlignUpIsLeast(x, al, AlignUp(y, al));
  }

  /** More regions need more room. */
  lemma FitsDownward(c: Config, run: nat, m: nat, n: nat)
    requires m <= n && c.Fits(run, n)
    ensures c.Fits(run, m) && c.header <= c.HdrSize(m) <= c.HdrSize(n)
  {
    GroupsMonotone(m, n);
    AlignUpMonotone(c.header, c.header, SIZEOF_LONG);
    AlignUpMonotone(c.BitmapOffset() + SIZEOF_LONG * Groups(m), c.BitmapOffset() + SIZEOF_LONG * Groups(n), QUANTUM);
    MulMono(m, n, c.interval);
  }

  /** The region count the search starts from. */
  function Cap(c: Config, run: nat): nat
    requires c.interval > 0 && c.header <= run
  {
    var n := (run - c.header) / c.interval;
    if n > RUN_MAXREGS then RUN_MAXREGS else n
  }

  /** The largest region count under the limit that fits. */
  ghost predicate Largest(c: Config, run: nat, n: nat) {
    n <= RUN_MAXREGS && c.Fits(run, n) && (n == RUN_MAXREGS || !c.Fits(run, n + 1))
  }

  /** No count beyond the start of the search fits. */
  lemma CapIsHigh(c: Config, run: nat, n: nat)
    requires c.interval > 0 && c.header <= run && n <= RUN_MAXREGS && c.Fits(run, n)
    ensures n <= Cap(c, run)
  {
    FitsDownward(c, run, n, n);
    DivBound(run - c.header, c.interval, n);
  }

  /** The inner loop: from the start downward until header and regions do not overlap. */
  method FitRegions(c: Config, run: nat) returns (n: nat)
    requires c.Ok() && c.Fits(run, 1)
    ensures Largest(c, run, n) && 1 <= n
  {
    FitsDownward(c, run, 1, 1);
    CapIsHigh(c, run, 1);
    n := Cap(c, run);
    assert n < RUN_MAXREGS ==> !c.Fits(run, n + 1) by {
      if n < RUN_MAXREGS && c.Fits(run, n + 1) {
        CapIsHigh(c, run, n + 1);
      }
    }
    while !c.Fits(run, n)
      invariant 1 <= n <= RUN_MAXREGS && (n == RUN_MAXREGS || !c.Fits(run, n + 1))
      decreases n
    {
      n := n - 1;
    }
  }

  /** There is only one such count. */
  lemma LargestUnique(c: Config, run: nat, m: nat, n: nat)
    requires Largest(c, run, m) && Largest(c, run, n)
    ensures m == n
  {
    if m < n {
      FitsDownward(c, run, m + 1, n);
    } else if n < m {
      FitsDownward(c, run, n + 1, m);
    }
  }

  /** Where the regions begin. */
  function Offset(c: Config, run: nat, n: nat): int {
    run - n * c.interval
  }

  /** The limit applies to this region size, and the header's share of the run is above it. */
  predicate AboveLimit(c: Config, run: nat, n: nat) {
    && RUN_MAX_OVRHD * (c.interval * 8) > RUN_MAX_OVRHD_RELAX
    && Offset(c, run, n) * RUN_BFP_SCALE > RUN_MAX_OVRHD * run
  }

  /** How the code tests for that: the left side is computed in 32 bits. */
  predicate TooMuchOverhead(c: Config, run: nat, n: nat) {
    && RUN_MAX_OVRHD * (c.interval * 8) > RUN_MAX_OVRHD_RELAX
    && (Offset(c, run, n) * RUN_BFP_SCALE) % TWO_32 > RUN_MAX_OVRHD * run
  }

  /** The test never goes off below the limit, and misses nothing while the header is below 1 MiB. */
  lemma TestTells(c: Config, run: nat, n: nat)
    requires Offset(c, run, n) >= 0
    ensures TooMuchOverhead(c, run, n) ==> AboveLimit(c, run, n)
    ensures Offset(c, run, n) < 0x10_0000 && AboveLimit(c, run, n) ==> TooMuchOverhead(c, run, n)
  {
    ModSmaller(Offset(c, run, n) * RUN_BFP_SCALE);
  }

  lemma ModSmaller(x: nat)
    ensures x % TWO_32 <= x && (x < TWO_32 ==> x % TWO_32 == x)
  {
  }

  /** With regions of a megabyte it does miss a header that is above the limit. */
  lemma TestMisses(c: Config)
    requires c == Config(4096, 16, 0x10_2000, 0x20_3000, false)
    ensures c.Ok() && Largest(c, 0x20_3000, 1) && AboveLimit(c, 0x20_3000, 1) && !TooMuchOverhead(c, 0x20_3000, 1)
  {
    assert Groups(1) == 1 && Groups(2) == 1;
  }

  /** The condition of the outer loop. */
  predicate GoesOn(c: Config, run: nat, n: nat) {
    run <= c.maxclass && TooMuchOverhead(c, run, n) && n < RUN_MAXREGS
  }

  /** The outer loop ends when it tries this size. */
  ghost predicate StopsAt(c: Config, run: nat) {
    forall n :: Largest(c, run, n) ==> !GoesOn(c, run, n)
  }

  datatype Layout = Layout(runSize: nat, nregs: nat, bitmapOffset: nat, ctx0Offset: nat, reg0Offset: nat)

  ghost predicate LayoutOk(c: Config, minRun: nat, l: Layout) {
    && minRun <= l.runSize <= c.maxclass && Largest(c, l.runSize, l.nregs) && 1 <= l.nregs
    && l.reg0Offset + l.nregs * c.interval == l.runSize
    && l.bitmapOffset == c.BitmapOffset() && l.ctx0Offset == c.CtxOffset(l.nregs) && c.HdrSize(l.nregs) <= l.reg0Offset
  }

  /** The largest layout of a run of this size is within the limit. */
  ghost predicate WithinLimit(c: Config, run: nat) {
    forall n :: Largest(c, run, n) ==> !AboveLimit(c, run, n)
  }

  lemma HonoredIff(c: Config, minRun: nat, l: Layout, n: nat)
    requires LayoutOk(c, minRun, l) && Largest(c, minRun, n) && StopsAt(c, l.runSize + c.page)
    requires l.runSize > minRun ==> GoesOn(c, l.runSize, l.nregs) && !StopsAt(c, minRun + c.page)
    requires l.runSize == minRun ==> l.nregs == n
    ensures !AboveLimit(c, l.runSize, l.nregs) <==> WithinLimit(c, minRun) && StopsAt(c, minRun + c.page)
  {
    TestTells(c, l.runSize, l.nregs);
    forall m | Largest(c, minRun, m) ensures m == n {
      LargestUnique(c, minRun, m, n);
    }
  }

  /**
   * bin_info_run_size_calc.  All bytes of the run are accounted for.  A run that was enlarged
   * still has too much overhead: the loop ends one step after the last size it keeps.  So the
   * promised limit is met exactly when the smallest run meets it and the next size ends the loop.
   */
  method RunSizeCalc(c: Config, minRun: nat) returns (l: Layout)
    requires c.Ok() && c.page <= minRun <= c.maxclass && c.Fits(minRun, 1)
    ensures LayoutOk(c, minRun, l)
    ensures l.runSize > minRun ==> GoesOn(c, l.runSize, l.nregs) && !StopsAt(c, minRun + c.page)
    ensures StopsAt(c, l.runSize + c.page)
    ensures !AboveLimit(c, l.runSize, l.nregs) <==> WithinLimit(c, minRun) && StopsAt(c, minRun + c.page)
  {
    var run := minRun;
    var n := FitRegions(c, run);
    ghost var n0 := n;
    while true
      invariant minRun <= run <= c.maxclass && Largest(c, run, n) && 1 <= n && c.Fits(run, 1)
      invariant run > minRun ==> GoesOn(c, run, n) && !StopsAt(c, minRun + c.page)
      invariant run == minRun ==> n == n0
      decreases c.maxclass - run
    {
      l := Layout(run, n, c.BitmapOffset(), c.CtxOffset(n), Offset(c, run, n));
      run := run + c.page;
      n := FitRegions(c, run);
      if !GoesOn(c, run, n) {
        forall m | Largest(c, run, m) ensures !GoesOn(c, run, m) {
          LargestUnique(c, run, m, n);
        }
        HonoredIff(c, minRun, l, n0);
        return;
      }
    }
  }

  /** It does not hold for 16-byte regions: one page is above the limit, two are not, and one is kept. */
  lemma OverheadExceeded(c: Config)
    requires c == Config(4096, 16, 16, 0x10_0000, false)
    ensures Largest(c, 4096, 252) && AboveLimit(c, 4096, 252)
    ensures Largest(c, 8192, 506) && !AboveLimit(c, 8192, 506) && StopsAt(c, 8192)
  {
    assert Groups(252) == 5 && Groups(253) == 5 && Groups(506) == 9 && Groups(507) == 9;
    forall n | Largest(c, 8192, n) ensures !GoesOn(c, 8192, n) {
      LargestUnique(c, 8192, n, 506);
    }
  }

  // --------------------------------------------------------------------------
  // Pages that were never touched
  // --------------------------------------------------------------------------

  /** Where the regions of a run are.  A region has redzones on both sides. */
  datatype Regions = Regions(page: nat, npages: nat, reg0: nat, interval: nat, regSize: nat, redzone: nat, nregs: nat) {
    ghost predicate Ok() {
      && page > 0 && interval == regSize + 2 * redzone && redzone < reg0
      && reg0 + nregs * interval - redzone <= npages * page
    }

    /** The first byte after region `n - 1` and its redzone. */
    function Past(n: nat): int {
      reg0 + n * interval - redzone
    }

    /** How many pages arena_dalloc_bin_run keeps when regions from `nextind` on are unused. */
    function Keep(nextind: nat): int
      requires page > 0 && Past(nextind) >= 0
    {
      AlignUp(Past(nextind), page) / page
    }

    /** The header, or a region that was handed out, or its redzone. */
    ghost predicate Touched(ever: set<nat>, byte: nat) {
      byte < reg0 - redzone || exists i :: i in ever && InRegion(i, byte)
    }

    ghost predicate InRegion(i: nat, byte: nat) {
      reg0 + i * interval - redzone <= byte < reg0 + i * interval + regSize + redzone
    }
  }

  lemma PastMonotone(r: Regions, m: nat, n: nat)
    requires m <= n
    ensures r.Past(m) <= r.Past(n)
  {
    MulMono(m, n, r.interval);
  }

  /**
   * Clean trimming is sound: no touched byte lies in the pages given back as clean, at least
   * one page is kept, and no more than the run has.
   */
  lemma CleanTrimSound(r: Regions, ever: set<nat>, nextind: nat, byte: nat)
    requires r.Ok() && nextind <= r.nregs && forall i :: i in ever ==> i < nextind
    ensures r.Past(nextind) > 0 && 1 <= r.Keep(nextind) <= r.npages
    ensures r.Touched(ever, byte) ==> byte / r.page < r.Keep(nextind)
  {
    PastMonotone(r, 0, nextind);
    PastMonotone(r, nextind, r.nregs);
    var past := r.Past(nextind);
    AlignUpIsLeast(past, r.page, r.npages * r.page);
    MultipleIs(r.npages, r.page);
    var keep := (past + r.page - 1) / r.page;
    MultipleIs(keep, r.page);
    KeepRange(past, keep, r.page, r.npages);
    if r.Touched(ever, byte) {
      if byte >= r.reg0 - r.redzone {
        var i :| i in ever && r.InRegion(i, byte);
        PastMonotone(r, i + 1, nextind);
        assert (i + 1) * r.interval == i * r.interval + r.interval;
      }
      BytePage(byte, keep, r.page);
    }
  }

  lemma KeepRange(past: nat, keep: int, page: nat, npages: nat)
    requires page > 0 && 0 < past <= keep * page <= npages * page
    ensures 1 <= keep <= npages
  {
    if keep <= 0 {
      MulMono(keep, 0, page);
    }
    if keep > npages {
      MulMono(npages + 1, keep, page);
    }
  }

  lemma BytePage(byte: nat, keep: int, page: nat)
    requires page > 0 && byte < keep * page
    ensures byte / page < keep
  {
    assert byte == byte / page * page + byte % page;
    if byte / page >= keep {
      MulMono(keep, byte / page, page);
    }
  }

  // --------------------------------------------------------------------------
  // The chunk header
  // --------------------------------------------------------------------------

  /** Sizes of the fixed part of a chunk header, of a page map entry, of a chunk and of a page. */
  datatype Chunk = Chunk(fixed: nat, entry: nat, npages: nat, page: nat) {
    ghost predicate Ok() {
      page > 0 && Pages(HeaderSize(0), page) <= npages
    }

    /** The bytes of a header whose page map leaves out the first `bias` pages. */
    function HeaderSize(bias: int): int {
      fixed + entry * (npages - bias)
    }

    /** The pages such a header takes. */
    function Next(bias: int): int
      requires page > 0
    {
      Pages(HeaderSize(bias), page)
    }
  }

  function Pages(bytes: int, page: nat): int
    requires page > 0
  {
    bytes / page + (if bytes % page != 0 then 1 else 0)
  }

  lemma PagesMonotone(x: int, y: int, page: nat)
    requires page > 0 && x <= y
    ensures Pages(x, page) <= Pages(y, page) && x <= Pages(x, page) * page
  {
    var q, r := x / page, y / page;
    assert x == q * page + x % page && y == r * page + y % page;
    DivBound(y, page, q);
    assert (q + 1) * page == q * page + page;
    if q == r && x % page != 0 {
      assert x % page <= y % page;
    }
  }

  /** A header that leaves out more pages of the map takes no more pages, and fits into them. */
  lemma NextAntitone(c: Chunk, a: int, b: int)
    requires c.page > 0 && a <= b
    ensures c.HeaderSize(b) <= c.HeaderSize(a) && c.Next(b) <= c.Next(a) && c.HeaderSize(b) <= c.Next(b) * c.page
  {
    MulMono(c.npages - b, c.npages - a, c.entry);
    PagesMonotone(c.HeaderSize(b), c.HeaderSize(a), c.page);
  }

  lemma NextBounds(c: Chunk, b: int)
    requires c.Ok() && 0 <= b <= c.npages
    ensures 0 <= c.HeaderSize(b) && 0 <= c.Next(b) <= c.npages
  {
    MulMono(0, c.npages - b, c.entry);
    NextAntitone(c, 0, b);
    PagesMonotone(0, c.HeaderSize(b), c.page);
  }

  /** The third result is not below the second, and the header fits into the pages it leaves out. */
  lemma ThirdRoundHolds(c: Chunk)
    requires c.Ok()
    ensures var one := c.Next(0); var two := c.Next(one); var three := c.Next(two);
      0 <= two <= three <= one <= c.npages && c.HeaderSize(three) <= three * c.page
  {
    var one := c.Next(0);
    NextBounds(c, 0);
    NextBounds(c, one);
    var two := c.Next(one);
    NextBounds(c, two);
    NextAntitone(c, 0, one);
    NextAntitone(c, two, one);
    NextAntitone(c, 0, two);
    NextAntitone(c, two, two);
    NextAntitone(c, two, c.Next(two));
  }

  /** arena_boot: the pages of a chunk that its header takes. */
  method MapBias(c: Chunk) returns (bias: int)
    requires c.Ok()
    ensures 0 <= bias <= c.npages && c.HeaderSize(bias) <= bias * c.page
  {
    bias := 0;
    for i := 0 to 3
      invariant i == 0 ==> bias == 0
      invariant i == 1 ==> bias == c.Next(0)
      invariant i == 2 ==> bias == c.Next(c.Next(0))
      invariant i == 3 ==> bias == c.Next(c.Next(c.Next(0)))
    {
      var headerSize := c.HeaderSize(bias);
      bias := headerSize / c.page + (if headerSize % c.page != 0 then 1 else 0);
    }
    ThirdRoundHolds(c);
  }
}
