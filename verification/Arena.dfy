/** An arena's page runs: allocation, release, trimming, growth and purging. */
module Arena {
  import opened Basics
  import opened PageRuns
  import opened PageMap
  import opened PageStates
  import opened ArenaState
  import opened ArenaOps
  import opened Align
  import SizeBits

  /** The remainder's entries survive the marking of the allocated part. */
  lemma SplitBits(b0: Bits, b1: Bits, b2: Bits, p: Page, n: nat, total: nat, d: bool)
    requires 0 < n < total && Within(b0, b1, Page(p.c, p.i + n), total - n) && Within(b1, b2, p, n)
    requires Shows(b1, Page(p.c, p.i + n), Run(total - n, Free, d))
    ensures Within(b0, b2, p, total) && Shows(b2, Page(p.c, p.i + n), Run(total - n, Free, d))
  {
    ShowsFrame(b1, b2, Page(p.c, p.i + n), Run(total - n, Free, d), p, n);
  }

  lemma SplitBegins(g: Geometry, rp: seq<nat>, s: State, runs: Runs, p: Page, n: nat, kind: Kind)
    requires CanSplit(g, rp, s, runs, p, n, kind)
    ensures p.c in s.chunkDirty && (runs[p].dirty ==> n <= s.ndirty && n <= s.chunkDirty[p.c])
    ensures p in s.bits && s.bits[p] == Unallocated(runs[p].len, runs[p].dirty)
    ensures p !in Used(runs) && Used(Split(runs, p, n, kind)) == Used(runs)[p := Run(n, kind, runs[p].dirty)]
  {
    SplitDefined(g, rp, s, runs, p, n, kind);
    SplitTiled(g, rp, runs, p, n, kind);
    UsedSplit(runs, p, n, kind);
  }

  lemma SplitEnds(g: Geometry, rp: seq<nat>, s0: State, s1: State, s2: State, runs: Runs, p: Page, n: nat, kind: Kind)
    requires CanSplit(g, rp, s0, runs, p, n, kind)
    requires p.c in s0.chunkDirty && (runs[p].dirty ==> n <= s0.ndirty && n <= s0.chunkDirty[p.c])
    requires s1 == SplitState(s0, runs, p, n, s1.bits) && s2 == s1.(bits := s2.bits)
    requires n == runs[p].len ==> s1.bits == s0.bits
    requires n < runs[p].len ==> Within(s0.bits, s1.bits, Page(p.c, p.i + n), runs[p].len - n)
    requires n < runs[p].len ==> Shows(s1.bits, Page(p.c, p.i + n), Run(runs[p].len - n, Free, runs[p].dirty))
    requires Within(s1.bits, s2.bits, p, n) && Shows(s2.bits, p, Run(n, kind, runs[p].dirty))
    ensures Inv(g, rp, s2, Split(runs, p, n, kind))
  {
    if n < runs[p].len {
      SplitBits(s0.bits, s1.bits, s2.bits, p, n, runs[p].len, runs[p].dirty);
    } else {
      assert Within(s0.bits, s2.bits, p, runs[p].len);
    }
    assert s2 == SplitState(s0, runs, p, n, s2.bits);
    SplitKeeps(g, rp, s0, runs, p, n, kind, s2.bits);
  }

  lemma {:induction false} NotListed(l: seq<nat>, c: nat)
    ensures c !in l ==> RemoveFrom(l, c) == l
  {
    if l != [] {
      NotListed(l[1..], c);
    }
  }

  lemma MarkBegins(g: Geometry, rp: seq<nat>, s: State, runs: Runs, p: Page, d: bool)
    requires Inv(g, rp, s, runs) && p in Used(runs)
    ensures p.c in s.chunkDirty && runs[p].len <= s.nactive
    ensures Used(Relabel(runs, p, Free, d)) == Used(runs) - {p}
  {
    MarkDefined(g, rp, s, runs, p);
    UsedRelabel(runs, p, Free, d);
  }

  lemma MarkEnds(g: Geometry, rp: seq<nat>, s: State, s': State, runs: Runs, p: Page, d: bool)
    requires Inv(g, rp, s, runs) && p in Used(runs) && p.c in s.chunkDirty && 0 < runs[p].len <= s.nactive
    requires s' == MarkState(s, runs, p, d, PutFree(s.bits, p, runs[p].len, d))
    ensures Mid(g, rp, s', Relabel(runs, p, Free, d), p)
  {
    PutFreeShows(s.bits, p, runs[p].len, d);
    MarkKeeps(g, rp, s, runs, p, d, s'.bits);
  }

  /** Giving back the spare and keeping another chunk instead. */
  lemma SpareReplaced(g: Geometry, rp: seq<nat>, s: State, s': State, runs: Runs, c: nat, d: bool)
    requires Inv(g, rp, s, runs) && s.spare.Some? && s.spare != Some(c) && WholeFree(g, runs, c) && runs[Page(c, g.bias)].dirty == d
    requires s.spare.value in s.chunkDirty && s.chunkDirty[s.spare.value] <= s.ndirty
    requires s.spare.value !in s.chunksDirty ==> s.chunkDirty[s.spare.value] == 0
    requires s' == SpareState(g, DiscardState(s), c, d)
    ensures Inv(g, rp, s', runs - {Page(s.spare.value, g.bias)}) && Used(runs - {Page(s.spare.value, g.bias)}) == Used(runs)
  {
    DiscardKeeps(g, rp, s, runs);
    SpareKeeps(g, rp, DiscardState(s), runs - {Page(s.spare.value, g.bias)}, c);
  }

  // --------------------------------------------------------------------------
  // The lowest best fit
  // --------------------------------------------------------------------------

  /** arena_avail_comp: by size, then by address. */
  predicate NotAfter(x: nat, p: Page, y: nat, q: Page) {
    x < y || (x == y && (p.c < q.c || (p.c == q.c && p.i <= q.i)))
  }

  predicate Sized(bits: Bits, t: set<Page>) {
    forall p :: p in t ==> p in bits && bits[p].Unallocated?
  }

  /** `p` is the least of the set in size and address order. */
  predicate IsLeast(bits: Bits, t: set<Page>, p: Page)
    requires Sized(bits, t)
  {
    p in t && forall q :: q in t ==> NotAfter(bits[p].size, p, bits[q].size, q)
  }

  lemma LeastIs(bits: Bits, t: set<Page>, p: Page, q: Page)
    requires Sized(bits, t) && IsLeast(bits, t, p) && q in t
    ensures NotAfter(bits[p].size, p, bits[q].size, q)
  {
  }

  lemma {:induction false} LeastExists(bits: Bits, t: set<Page>) returns (p: Page)
    requires t != {} && Sized(bits, t)
    ensures IsLeast(bits, t, p)
    decreases |t|
  {
    var x :| x in t;
    if t == {x} {
      p := x;
    } else {
      var y := LeastExists(bits, t - {x});
      p := if NotAfter(bits[y].size, y, bits[x].size, x) then y else x;
    }
  }

  /** What arena_run_alloc_helper picks: dirty runs first, and of those the lowest best fit. */
  ghost predicate BestFit(s: State, runs: Runs, n: nat, p: Page)
    requires forall q :: q in s.dirty || q in s.clean ==> q in runs
  {
    && p in runs && n <= runs[p].len
    && (if p in s.dirty then forall q :: q in s.dirty && n <= runs[q].len ==> NotAfter(runs[p].len, p, runs[q].len, q)
        else && p in s.clean && (forall q :: q in s.dirty ==> runs[q].len < n)
             && forall q :: q in s.clean && n <= runs[q].len ==> NotAfter(runs[p].len, p, runs[q].len, q))
  }

  lemma TreeEntries(s: State, runs: Runs, d: bool)
    requires AllShow(s.bits, runs) && TreesOk(s, runs, None)
    ensures forall q :: q in Tree(s, d) ==> q in runs && q in s.bits && s.bits[q].Unallocated? && s.bits[q].size == runs[q].len
  {
    forall q | q in Tree(s, d) ensures q in runs && q in s.bits && s.bits[q].Unallocated? && s.bits[q].size == runs[q].len {
      FirstEntry(s.bits, runs, q);
    }
  }

  // --------------------------------------------------------------------------
  // Trimming and growing
  // --------------------------------------------------------------------------

  /** The entries after a large run was made into two, each marked on its own. */
  function DividedBits(bits: Bits, p: Page, n: nat, len: nat, d: bool): Bits
    requires 0 < n < len
  {
    PutLarge(bits, p, n, d)[Page(p.c, p.i + n) := LargeBits(len - n, d)]
  }

  lemma DividedShows(bits: Bits, p: Page, n: nat, len: nat, d: bool)
    requires 0 < n < len && Shows(bits, p, Run(len, Large, d))
    ensures Within(bits, DividedBits(bits, p, n, len, d), p, len)
    ensures Shows(DividedBits(bits, p, n, len, d), p, Run(n, Large, d))
    ensures Shows(DividedBits(bits, p, n, len, d), Page(p.c, p.i + n), Run(len - n, Large, d))
  {
  }

  lemma DivideReady(g: Geometry, rp: seq<nat>, s: State, runs: Runs, p: Page, n: nat)
    requires Inv(g, rp, s, runs) && p in runs && runs[p].kind.Large? && 0 < n < runs[p].len
    ensures var d, len := runs[p].dirty, runs[p].len; var runs' := Divide(runs, p, n, Large, Large, d);
      && p in s.bits && s.bits[p] == LargeBits(len, d) && Page(p.c, p.i + n) !in runs
      && Inv(g, rp, s.(bits := DividedBits(s.bits, p, n, len, d)), runs') && Turned(runs, runs', {}, {})
      && Used(runs') == Used(runs)[p := Run(n, Large, d)][Page(p.c, p.i + n) := Run(len - n, Large, d)]
  {
    var d, len := runs[p].dirty, runs[p].len;
    assert ShowsAt(s.bits, runs, p);
    DividedShows(s.bits, p, n, len, d);
    NoneInside(g, runs, p, n);
    DivideLarge(g, rp, s, runs, p, n, DividedBits(s.bits, p, n, len, d));
    UsedDivide(runs, p, n, d);
    FewerFree(runs, Divide(runs, p, n, Large, Large, d));
  }

  /** The entries after a large run absorbed the one after it. */
  lemma GrownShows(bits: Bits, p: Page, len: nat, d: bool)
    requires len > 1
    ensures var b := bits[p := LargeBits(len, d)][LastOf(p, len) := LargeBits(0, d)];
      Within(bits, b, p, len) && Shows(b, p, Run(len, Large, d))
  {
  }

  /** Sizes are counted in pages of 4096 bytes; a 64-bit byte difference wraps at this many. */
  const WRAP: nat := 0x10_0000_0000_0000

  /** A free run follows. */
  ghost predicate Follows(runs: Runs, p: Page)
    requires p in runs
  {
    After(runs, p) in runs && runs[After(runs, p)].kind.Free?
  }

  /** A free run follows, and the two are long enough together. */
  ghost predicate CanGrow(runs: Runs, p: Page, size: nat)
    requires p in runs
  {
    Follows(runs, p) && runs[p].len <= size <= runs[p].len + runs[After(runs, p)].len
  }

  /** The run with as much of the following one as it may have. */
  ghost function Grown(runs: Runs, p: Page, most: nat): Run
    requires p in runs && After(runs, p) in runs
  {
    var m := runs[After(runs, p)];
    Run(if runs[p].len + m.len <= most then runs[p].len + m.len else most, Large, runs[p].dirty || m.dirty)
  }

  lemma WrapTells(size: nat, len: nat, e: Entry)
    requires size < WRAP && (e.Unallocated? ==> len + e.size < WRAP)
    ensures e.Unallocated? ==> (e.size >= (size - len) % WRAP <==> len <= size <= len + e.size)
  {
    assert size < len && len < WRAP ==> (size - len) % WRAP == size - len + WRAP;
    assert size >= len ==> (size - len) % WRAP == size - len;
  }

  /** The run stays where it is when the one after it is split. */
  lemma SplitAfter(runs: Runs, runs': Runs, p: Page, n: nat)
    requires p in runs && After(runs, p) in runs && After(runs, p) != p && 0 < n <= runs[After(runs, p)].len
    requires runs' == Split(runs, After(runs, p), n, Large) && Page(p.c, p.i + runs[p].len + n) != p
    ensures p in runs' && runs'[p] == runs[p] && After(runs', p) == After(runs, p)
    ensures After(runs, p) in runs' && runs'[After(runs, p)] == Run(n, Large, runs[After(runs, p)].dirty)
  {
  }

  /** What the entries say about two large runs before they are merged. */
  lemma GrowReady(g: Geometry, rp: seq<nat>, s: State, runs: Runs, p: Page, n: nat)
    requires Inv(g, rp, s, runs) && p in runs && runs[p].kind.Large? && After(runs, p) in runs
    requires runs[After(runs, p)].kind.Large? && runs[After(runs, p)].len == n
    ensures p in s.bits && s.bits[p] == LargeBits(runs[p].len, runs[p].dirty) && runs[p].len + n > 1
    ensures LastOf(p, runs[p].len + n) in s.bits && s.bits[LastOf(p, runs[p].len + n)].dirty == runs[After(runs, p)].dirty
  {
    assert ShowsAt(s.bits, runs, p) && ShowsAt(s.bits, runs, After(runs, p));
    assert LastOf(p, runs[p].len + n) == LastOf(After(runs, p), n);
  }

  /** The page number of a page; chunks lie at multiples of the chunk size. */
  function Address(g: Geometry, p: Page): nat {
    p.c * g.np + p.i
  }

  /** How many pages to skip to the next multiple of `al`. */
  function Lead(g: Geometry, p: Page, al: nat): (lead: nat)
    requires al > 0
  {
    AlignUpIsLeast(Address(g, p), al, 0);
    AlignUp(Address(g, p), al) - Address(g, p)
  }

  lemma LeadFits(g: Geometry, p: Page, n: nat, al: nat)
    requires al > 0
    ensures Lead(g, p, al) + n <= n + al - 1 && Multiple(Address(g, Page(p.c, p.i + Lead(g, p, al))), al)
  {
    MultipleIs(Address(g, p), 1);
    MultipleIs(al, 1);
    AlignedBlockFits(Address(g, p), n + al - 1, n, al, 1);
    AlignUpIsLeast(Address(g, p), al, 0);
  }

  // --------------------------------------------------------------------------
  // The bound on dirty pages
  // --------------------------------------------------------------------------

  /** nactive >> opt_lg_dirty_mult. */
  function Allowed(nactive: nat, lg: nat): nat {
    SizeBits.Prefix(nactive, lg)
  }

  /** At most a chunk's worth of pages is dirty, or a fixed fraction of those in use. */
  predicate Bounded(g: Geometry, lg: int, s: State) {
    lg >= 0 ==> s.ndirty <= g.np || s.ndirty <= Allowed(s.nactive, lg)
  }

  lemma BoundedKept(g: Geometry, lg: int, s: State, s': State)
    requires Bounded(g, lg, s) && s'.ndirty <= s.ndirty && s.nactive <= s'.nactive
    ensures Bounded(g, lg, s')
  {
    if lg >= 0 {
      SizeBits.PrefixMonotone(s.nactive, s'.nactive, lg);
    }
  }

  /** With no chunk listed there is no dirty page. */
  lemma NoneDirty(g: Geometry, rp: seq<nat>, s: State, runs: Runs)
    requires Inv(g, rp, s, runs) && forall c :: c in s.chunkDirty ==> s.chunkDirty[c] == 0
    ensures s.ndirty == 0
  {
    forall p | p in runs ensures !(runs[p].kind.Free? && runs[p].dirty) {
      assert RunOk(g, runs, p);
      assert ChunkCount(s, runs, p.c);
      RunCounts(DirtyIn(p.c), runs, p);
    }
    NoDirtyRuns(runs);
  }

  lemma {:induction false} NoDirtyRuns(runs: Runs)
    requires forall p :: p in runs ==> !(runs[p].kind.Free? && runs[p].dirty)
    ensures Sum(Dirty, runs) == 0
    decreases |runs|
  {
    if runs != map[] {
      var p :| p in runs;
      SumWithout(Dirty, runs, p);
      NoDirtyRuns(runs - {p});
    }
  }

  lemma {:induction false} RemoveShrinks(l: seq<nat>, c: nat)
    ensures |RemoveFrom(l, c)| <= |l| && (c in l ==> |RemoveFrom(l, c)| < |l|)
  {
    if l != [] {
      RemoveShrinks(l[1..], c);
    }
  }

  lemma ListDropsClean(g: Geometry, rp: seq<nat>, s: State, runs: Runs, c: nat)
    requires Inv(g, rp, s, runs) && c in s.chunkDirty && s.chunkDirty[c] == 0
    ensures Inv(g, rp, s.(chunksDirty := RemoveFrom(s.chunksDirty, c)), runs)
  {
    var s' := s.(chunksDirty := RemoveFrom(s.chunksDirty, c));
    RemoveDistinct(s.chunksDirty, c);
    forall k | k in s'.chunkDirty ensures ChunkCount(s', runs, k) {
      assert ChunkCount(s, runs, k);
    }
  }

  // --------------------------------------------------------------------------
  // Runs stashed by a purge
  // --------------------------------------------------------------------------

  /** The runs in use are `used` and the stashed ones, which are clean large runs. */
  ghost predicate Stashed(runs: Runs, used: Runs, stash: seq<Page>) {
    && Distinct(stash)
    && (forall p :: p in stash ==> p in runs && runs[p].kind.Large? && !runs[p].dirty)
    && used == Used(runs) - (set p | p in stash)
    && (forall p :: p in stash ==> p !in used)
  }

  /** The stashed pages are counted as in use; the counts of dirty pages are as they were. */
  ghost predicate StashOk(s0: State, s: State, runs: Runs, used: Runs, stash: seq<Page>) {
    && Stashed(runs, used, stash) && s.nactive == s0.nactive + Lengths(runs, stash)
    && s.ndirty == s0.ndirty && s.chunkDirty == s0.chunkDirty && s.chunksDirty == s0.chunksDirty
  }

  ghost function Lengths(runs: Runs, stash: seq<Page>): nat
    requires forall p :: p in stash ==> p in runs
  {
    if stash == [] then 0 else runs[stash[0]].len + Lengths(runs, stash[1..])
  }

  lemma {:induction false} LengthsFrame(runs: Runs, runs': Runs, stash: seq<Page>)
    requires forall p :: p in stash ==> p in runs && p in runs' && runs'[p].len == runs[p].len
    ensures Lengths(runs', stash) == Lengths(runs, stash)
  {
    if stash != [] {
      assert stash[0] in stash;
      LengthsFrame(runs, runs', stash[1..]);
    }
  }

  lemma {:induction false} LengthsAppend(runs: Runs, stash: seq<Page>, p: Page)
    requires p in runs && forall q :: q in stash ==> q in runs
    ensures Lengths(runs, stash + [p]) == Lengths(runs, stash) + runs[p].len
  {
    if stash == [] {
      assert stash + [p] == [p];
    } else {
      assert (stash + [p])[1..] == stash[1..] + [p];
      LengthsAppend(runs, stash[1..], p);
    }
  }

  /** The pages of the stashed runs. */
  ghost function StashPages(runs: Runs, stash: seq<Page>): set<Page>
    requires forall p :: p in stash ==> p in runs
  {
    if stash == [] then {} else PagesOf(stash[0], runs[stash[0]].len) + StashPages(runs, stash[1..])
  }

  lemma {:induction false} StashPagesFrame(runs: Runs, runs': Runs, stash: seq<Page>)
    requires forall p :: p in stash ==> p in runs && p in runs' && runs'[p].len == runs[p].len
    ensures StashPages(runs', stash) == StashPages(runs, stash)
  {
    if stash != [] {
      assert stash[0] in stash;
      StashPagesFrame(runs, runs', stash[1..]);
    }
  }

  lemma {:induction false} StashPagesAppend(runs: Runs, stash: seq<Page>, p: Page)
    requires p in runs && forall q :: q in stash ==> q in runs
    ensures StashPages(runs, stash + [p]) == StashPages(runs, stash) + PagesOf(p, runs[p].len)
  {
    if stash == [] {
      assert stash + [p] == [p];
    } else {
      assert (stash + [p])[1..] == stash[1..] + [p];
      StashPagesAppend(runs, stash[1..], p);
    }
  }

  /** The stashed pages were free and dirty in `runs0`. */
  ghost predicate WereDirty(runs0: Runs, w: set<Page>) {
    forall a :: a in w ==> FreeAs(runs0, true, a)
  }

  /** Nothing else has changed since `runs0`, and what is stashed was dirty then. */
  ghost predicate StashSound(runs0: Runs, runs: Runs, stash: seq<Page>) {
    && (forall q :: q in stash ==> q in runs)
    && Turned(runs0, runs, {}, {}) && WereDirty(runs0, StashPages(runs, stash))
  }

  lemma StashStep(runs0: Runs, runs: Runs, runs': Runs, stash: seq<Page>, p: Page)
    requires StashSound(runs0, runs, stash) && Turned(runs, runs', {}, {}) && (forall q :: q in stash + [p] ==> q in runs')
    requires p in runs && runs' == Relabel(runs, p, Large, false) && runs[p].kind.Free? && runs[p].dirty
    ensures StashSound(runs0, runs', stash + [p])
  {
    StashPagesFrame(runs, runs', stash);
    StashPagesAppend(runs', stash, p);
    TurnedOn(runs0, runs, runs', {}, {}, {}, {});
    forall a | a in PagesOf(p, runs[p].len) ensures FreeAs(runs0, true, a) {
      assert FreeAt(runs, p, true, a);
      assert FreeAs(runs, true, a);
    }
  }

  /** A page of a run that has been given back, if it is still mapped, is free as the change allows. */
  lemma ReleasedPage(g: Geometry, runs: Runs, runs': Runs, p: Page, d: set<Page>, c: set<Page>, a: Page)
    requires Tiled(g, runs) && p in Used(runs) && Used(runs') == Used(runs) - {p} && Turned(runs, runs', d, c)
    requires Spans(p, runs[p].len, a)
    ensures Mapped(runs', a) ==> (FreeAs(runs', true, a) && a in d) || (FreeAs(runs', false, a) && a in c)
  {
    if Mapped(runs', a) {
      var q := MappedIs(runs', a);
      assert InRun(runs, p, a);
      if !runs'[q].kind.Free? {
        assert q in Used(runs') && q in Used(runs) && q != p;
        assert InRun(runs, q, a);
        OneRun(g, runs, p, q, a);
      } else {
        InUseNotFree(g, runs, p, runs'[q].dirty, a);
      }
    }
  }

  lemma StashedMore(runs: Runs, used: Runs, stash: seq<Page>, p: Page)
    requires Stashed(runs, used, stash) && p in runs && runs[p].kind.Free?
    ensures Stashed(Relabel(runs, p, Large, false), used, stash + [p])
    ensures Lengths(Relabel(runs, p, Large, false), stash + [p]) == Lengths(runs, stash) + runs[p].len
  {
    var runs' := Relabel(runs, p, Large, false);
    UsedRelabel(runs, p, Large, false);
    assert p !in stash;
    LengthsFrame(runs, runs', stash);
    LengthsAppend(runs', stash, p);
    assert used == Used(runs') - (set q | q in stash + [p]);
  }

  lemma StashedFirst(runs: Runs, used: Runs, stash: seq<Page>)
    requires Stashed(runs, used, stash) && stash != []
    ensures stash[0] in Used(runs) && !runs[stash[0]].dirty && stash[0] !in stash[1..]
    ensures forall p :: p in stash ==> p in runs
    ensures Lengths(runs, stash) == runs[stash[0]].len + Lengths(runs, stash[1..])
  {
    assert stash[0] in stash;
  }

  lemma StashedRest(runs: Runs, runs': Runs, used: Runs, stash: seq<Page>)
    requires Stashed(runs, used, stash) && stash != [] && Used(runs') == Used(runs) - {stash[0]}
    ensures Stashed(runs', used, stash[1..])
    ensures Lengths(runs', stash[1..]) == Lengths(runs, stash[1..])
    ensures StashPages(runs, stash) == PagesOf(stash[0], runs[stash[0]].len) + StashPages(runs', stash[1..])
  {
    var rest, p := stash[1..], stash[0];
    assert p in stash && p !in rest;
    forall q | q in rest ensures q in runs' && runs'[q] == runs[q] {
      assert q in stash && q in Used(runs) && q in Used(runs');
    }
    assert (set q | q in stash) == (set q | q in rest) + {p} by {
      assert stash == [p] + rest;
    }
    LengthsFrame(runs, runs', rest);
    StashPagesFrame(runs, runs', rest);
  }

  lemma StashEnds(g: Geometry, rp: seq<nat>, s: State, s': State, runs: Runs, p: Page, used: Runs, stash: seq<Page>)
    requires Purging(g, rp, s, runs, p.c) && p in runs && runs[p].kind.Free? && runs[p].dirty && runs[p].len > 0
    requires Stashed(runs, used, stash) && s' == StashState(s, p, runs[p].len, PutLarge(s.bits, p, runs[p].len, false))
    ensures Purging(g, rp, s', Relabel(runs, p, Large, false), p.c)
    ensures Stashed(Relabel(runs, p, Large, false), used, stash + [p])
    ensures Lengths(Relabel(runs, p, Large, false), stash + [p]) == Lengths(runs, stash) + runs[p].len
  {
    PutLargeShows(s.bits, p, runs[p].len, false);
    StashKeeps(g, rp, s, runs, p, s'.bits);
    StashedMore(runs, used, stash, p);
  }

  lemma InBounds(g: Geometry, runs: Runs)
    requires Tiled(g, runs)
    ensures forall p :: p in runs ==> g.bias <= p.i < g.np
  {
    forall p | p in runs ensures g.bias <= p.i < g.np {
      assert RunOk(g, runs, p);
    }
  }

  /** The walk stands before a run or at the end, and has left no free dirty run behind. */
  ghost predicate Walked(g: Geometry, runs: Runs, c: nat, i: nat) {
    && i <= g.np && (i < g.np ==> Page(c, i) in runs)
    && forall p :: p in runs && p.c == c && p.i < i ==> !(runs[p].kind.Free? && runs[p].dirty)
  }

  lemma StashBegins(g: Geometry, rp: seq<nat>, s: State, runs: Runs, c: nat)
    requires Inv(g, rp, s, runs) && c in s.chunkDirty && s.spare != Some(c)
    ensures Purging(g, rp, s, runs, c) && Walked(g, runs, c, g.bias) && StashOk(s, s, runs, Used(runs), []) && StashSound(runs, runs, [])
  {
    StartPurging(g, rp, s, runs, c);
    InBounds(g, runs);
    var none: seq<Page> := [];
    assert Used(runs) - (set p | p in none) == Used(runs);
    FewerFree(runs, runs);
    assert StashPages(runs, none) == {};
  }

  lemma WalkedAll(g: Geometry, runs: Runs, c: nat, i: nat)
    requires Tiled(g, runs) && Walked(g, runs, c, i) && i >= g.np
    ensures forall p :: p in runs && p.c == c ==> !(runs[p].kind.Free? && runs[p].dirty)
  {
    InBounds(g, runs);
  }

  lemma WalkOn(g: Geometry, runs: Runs, runs': Runs, c: nat, i: nat)
    requires Tiled(g, runs') && i < g.np && Walked(g, runs, c, i) && Page(c, i) in runs'
    requires runs' == runs || runs' == Relabel(runs, Page(c, i), Large, false)
    requires !(runs'[Page(c, i)].kind.Free? && runs'[Page(c, i)].dirty)
    ensures Walked(g, runs', c, i + runs'[Page(c, i)].len)
  {
    assert RunOk(g, runs', Page(c, i));
    NoneBetween(g, runs', Page(c, i));
  }

  lemma NoneBetween(g: Geometry, runs: Runs, p: Page)
    requires Tiled(g, runs) && p in runs
    ensures forall q :: q in runs && q.c == p.c && p.i < q.i ==> p.i + runs[p].len <= q.i
  {
    forall q | q in runs && q.c == p.c && p.i < q.i ensures p.i + runs[p].len <= q.i {
      assert RunsApart(runs, p, q);
    }
  }

  /**
   * The pages of a run have been given back dirty, or clean if `d` does not hold.  Other than
   * that only purged pages have become clean, and only pages that were dirty are purged.
   */
  ghost predicate Released(runs: Runs, runs': Runs, p: Page, len: nat, d: bool, purged: set<Page>) {
    && Turned(runs, runs', Only(d, PagesOf(p, len)), Only(!d, PagesOf(p, len)) + purged)
    && WereDirtyOr(runs, purged, PagesOf(p, len)) && (!d ==> purged == {})
  }

  ghost predicate WereDirtyOr(runs: Runs, purged: set<Page>, w: set<Page>) {
    forall a :: a in purged ==> FreeAs(runs, true, a) || a in w
  }

  lemma ThenPurged(r0: Runs, r1: Runs, r2: Runs, p: Page, len: nat, d: bool, purged: set<Page>)
    requires Turned(r0, r1, Only(d, PagesOf(p, len)), Only(!d, PagesOf(p, len)))
    requires if d then Turned(r1, r2, {}, purged) && WereDirty(r1, purged) else r2 == r1 && purged == {}
    ensures Released(r0, r2, p, len, d, purged)
  {
    var w := PagesOf(p, len);
    if d {
      TurnedOn(r0, r1, r2, Only(d, w), Only(!d, w), {}, purged);
      assert Only(d, w) + {} == Only(d, w);
      forall a | a in purged ensures FreeAs(r0, true, a) || a in w {
        assert FreeAs(r1, true, a);
      }
    } else {
      assert Only(!d, w) + purged == Only(!d, w);
    }
  }

  /** Dividing a run before that changes nothing. */
  lemma DividedFirst(r0: Runs, r1: Runs, r2: Runs, p: Page, len: nat, d: bool, purged: set<Page>)
    requires Turned(r0, r1, {}, {}) && Released(r1, r2, p, len, d, purged)
    ensures Released(r0, r2, p, len, d, purged)
  {
    var w := PagesOf(p, len);
    TurnedOn(r0, r1, r2, {}, {}, Only(d, w), Only(!d, w) + purged);
    assert {} + Only(d, w) == Only(d, w) && {} + (Only(!d, w) + purged) == Only(!d, w) + purged;
    forall a | a in purged ensures FreeAs(r0, true, a) || a in w {
      assert FreeAs(r1, true, a) || a in w;
    }
  }

  /** How many pages of a small run go back dirty: all, unless it was clean and some are trimmed. */
  function Kept(run: Run, keep: nat): nat {
    if !run.dirty && keep < run.len then keep else run.len
  }

  /** The first pages have been given back dirty, the others clean, and some have been purged. */
  ghost predicate Trimmed(runs: Runs, runs': Runs, p: Page, keep: nat, purged: set<Page>)
    requires p in runs
  {
    var k := Kept(runs[p], keep);
    && Turned(runs, runs', PagesOf(p, k), PagesOf(Page(p.c, p.i + k), runs[p].len - k) + purged)
    && WereDirtyOr(runs, purged, PagesOf(p, k))
  }

  lemma TrimThenPurge(r0: Runs, r1: Runs, r2: Runs, p: Page, keep: nat, purged: set<Page>)
    requires p in r0 && Trimmed(r0, r1, p, keep, {}) && Turned(r1, r2, {}, purged) && WereDirty(r1, purged)
    ensures Trimmed(r0, r2, p, keep, purged)
  {
    var k := Kept(r0[p], keep);
    var d, c := PagesOf(p, k), PagesOf(Page(p.c, p.i + k), r0[p].len - k);
    TurnedOn(r0, r1, r2, d, c + {}, {}, purged);
    assert d + {} == d && c + {} + purged == c + purged;
    forall a | a in purged ensures FreeAs(r0, true, a) || a in d {
      assert FreeAs(r1, true, a);
    }
  }

  lemma KeptPage(g: Geometry, runs: Runs, runs': Runs, p: Page, keep: nat, purged: set<Page>, a: Page)
    requires Tiled(g, runs) && p in Used(runs) && Used(runs') == Used(runs) - {p} && Trimmed(runs, runs', p, keep, purged)
    requires a in PagesOf(p, Kept(runs[p], keep))
    ensures FreeAs(runs', true, a) || a in purged || !Mapped(runs', a)
  {
    var k := Kept(runs[p], keep);
    ReleasedPage(g, runs, runs', p, PagesOf(p, k), PagesOf(Page(p.c, p.i + k), runs[p].len - k) + purged, a);
  }

  /** The pages of a new run were free with dirtiness `d` before, or are newly mapped. */
  ghost predicate CameFrom(runs0: Runs, p: Page, n: nat, d: bool, w: set<Page>) {
    forall a :: a in PagesOf(p, n) ==> FreeAs(runs0, d, a) || a in w
  }

  lemma SplitCame(runs: Runs, p: Page, n: nat)
    requires p in runs && runs[p].kind.Free? && n <= runs[p].len
    ensures CameFrom(runs, p, n, runs[p].dirty, {})
  {
    forall a | a in PagesOf(p, n) ensures FreeAs(runs, runs[p].dirty, a) {
      assert FreeAt(runs, p, runs[p].dirty, a);
    }
  }

  lemma CameFurther(runs0: Runs, runs: Runs, p: Page, n: nat, d: bool, w: set<Page>)
    requires CameFrom(runs, p, n, d, {}) && Turned(runs0, runs, {}, w)
    ensures CameFrom(runs0, p, n, d, w)
  {
    forall a | a in PagesOf(p, n) ensures FreeAs(runs0, d, a) || a in w {
      assert FreeAs(runs, d, a);
    }
  }

  /** The pages of a chunk that the system has just mapped. */
  ghost function NewPages(g: Geometry, newChunk: Option<nat>): set<Page> {
    if newChunk.Some? && g.bias <= g.np then PagesOf(Page(newChunk.value, g.bias), g.MaxLen()) else {}
  }

  lemma CutUsed(used: Runs, p: Page, q: Page, a: Run, b: Run)
    requires p != q
    ensures used[p := a][q := b] - {p} == (used - {p})[q := b]
  {
  }

  /** No free run has `n` pages, and there is no spare chunk. */
  ghost predicate Exhausted(s: State, runs: Runs, n: nat) {
    s.spare.None? && forall q :: q in s.dirty || q in s.clean ==> q in runs && runs[q].len < n
  }

  class Arena {
    const g: Geometry
    const rp: seq<nat>
    const lgDirtyMult: int
    var s: State
    var npurgatory: nat
    ghost var runs: Runs

    ghost predicate Valid()
      reads this
    {
      Inv(g, rp, s, runs)
    }

    constructor (g: Geometry, rp: seq<nat>, lgDirtyMult: int)
      requires g.Ok()
      ensures Valid() && this.g == g && this.rp == rp && this.lgDirtyMult == lgDirtyMult && Used(runs) == map[] && npurgatory == 0 && s.ndirty == 0
    {
      this.g, this.rp, this.lgDirtyMult := g, rp, lgDirtyMult;
      s := State(map[], {}, {}, None, 0, 0, map[], []);
      npurgatory := 0;
      runs := map[];
    }

    /** A chunk the arena does not have holds none of its runs. */
    lemma UnknownChunk(c: nat)
      requires Valid() && c !in s.chunkDirty
      ensures NoRunsIn(runs, c)
    {
      forall p | p in runs ensures p.c != c {
        assert RunOk(g, runs, p);
      }
    }

    /** A chunk that the system may map. */
    predicate NewOk(newChunk: Option<nat>)
      reads this
    {
      newChunk.Some? ==> newChunk.value !in s.chunkDirty
    }

    /** arena_mapbits_small_set for all pages of a run: only the end entries carry the dirty flag. */
    method PutSmall(p: Page, n: nat, b: nat, d: bool)
      requires n > 0
      modifies this`s
      ensures s == old(s).(bits := s.bits) && Within(old(s.bits), s.bits, p, n) && Shows(s.bits, p, Run(n, Small(b), d))
    {
      s := s.(bits := s.bits[p := SmallBits(0, b, d)]);
      for i := 1 to n
        invariant s == old(s).(bits := s.bits) && Within(old(s.bits), s.bits, p, n)
        invariant p in s.bits && s.bits[p] == SmallBits(0, b, d)
        invariant forall j :: p.i <= j < p.i + i ==> SmallAt(s.bits, Page(p.c, j), j - p.i, b)
      {
        s := s.(bits := s.bits[Page(p.c, p.i + i) := SmallBits(i, b, false)]);
      }
      s := s.(bits := s.bits[LastOf(p, n) := SmallBits(n - 1, b, d)]);
    }

    /** arena_run_split: the first `n` pages of a free run are put to use. */
    method RunSplit(p: Page, n: nat, kind: Kind)
      requires CanSplit(g, rp, s, runs, p, n, kind)
      modifies this`s, this`runs
      ensures Valid() && runs == Split(old(runs), p, n, kind) && Turned(old(runs), runs, {}, {})
      ensures p !in Used(old(runs)) && Used(runs) == Used(old(runs))[p := Run(n, kind, old(runs)[p].dirty)]
      ensures s.nactive == old(s).nactive + n && s.ndirty == old(s).ndirty - (if old(runs)[p].dirty then n else 0)
    {
      ghost var s0 := s;
      SplitBegins(g, rp, s, runs, p, n, kind);
      var d, total := s.bits[p].dirty, s.bits[p].size;
      SplitOff(p, n, d, total);
      ghost var s1 := s;
      PutUsed(p, n, kind, d);
      SplitEnds(g, rp, s0, s1, s, runs, p, n, kind);
      SplitTurns(runs, p, n, kind);
      runs := Split(runs, p, n, kind);
    }

    /** Trees, counters and the remaining free run. */
    method SplitOff(p: Page, n: nat, d: bool, total: nat)
      requires p in runs && runs[p].len == total && runs[p].dirty == d && 0 < n <= total
      requires p.c in s.chunkDirty && (d ==> n <= s.ndirty && n <= s.chunkDirty[p.c])
      modifies this`s
      ensures s == SplitState(old(s), runs, p, n, s.bits)
      ensures n == total ==> s.bits == old(s.bits)
      ensures n < total ==> Within(old(s.bits), s.bits, Page(p.c, p.i + n), total - n) && Shows(s.bits, Page(p.c, p.i + n), Run(total - n, Free, d))
    {
      var rem := total - n;
      var m := Page(p.c, p.i + n);
      s := WithTree(s, d, Tree(s, d) - {p});
      s := s.(nactive := s.nactive + n);
      if rem > 0 {
        PutFreeShows(s.bits, m, rem, d);
        s := s.(bits := PutFree(s.bits, m, rem, d));
        s := WithTree(s, d, Tree(s, d) + {m});
      }
      if d {
        s := s.(chunkDirty := s.chunkDirty[p.c := s.chunkDirty[p.c] - n], ndirty := s.ndirty - n);
      }
    }

    /** The map entries of a run in use. */
    method PutUsed(p: Page, n: nat, kind: Kind, d: bool)
      requires n > 0 && !kind.Free?
      modifies this`s
      ensures s == old(s).(bits := s.bits) && Within(old(s.bits), s.bits, p, n) && Shows(s.bits, p, Run(n, kind, d))
    {
      if kind.Large? {
        PutLargeShows(s.bits, p, n, d);
        s := s.(bits := PutLarge(s.bits, p, n, d));
      } else {
        PutSmall(p, n, kind.bin, d);
      }
    }

    /** The length of a run in use, as its map entry or its bin tells. */
    method RunLength(p: Page) returns (n: nat)
      requires Valid() && p in Used(runs)
      ensures n == runs[p].len > 0 && p in s.bits && s.bits[p].dirty == runs[p].dirty
    {
      FirstEntry(s.bits, runs, p);
      n := if s.bits[p].LargeBits? then s.bits[p].size else rp[s.bits[p].bin];
    }

    /** First part of arena_run_dalloc: the run is marked free, as dirty if it is or was. */
    method MarkFree(p: Page, dirty: bool) returns (d: bool)
      requires Valid() && p in Used(runs)
      modifies this`s, this`runs
      ensures Turned(old(runs), runs, Only(d, PagesOf(p, old(runs)[p].len)), Only(!d, PagesOf(p, old(runs)[p].len)))
      ensures Mid(g, rp, s, runs, p) && runs == Relabel(old(runs), p, Free, d) && d == (dirty || old(runs)[p].dirty)
      ensures Used(runs) == Used(old(runs)) - {p} && s.nactive == old(s).nactive - old(runs)[p].len
      ensures s.ndirty == old(s).ndirty + (if d then old(runs)[p].len else 0)
    {
      ghost var s0 := s;
      MarkBegins(g, rp, s, runs, p, dirty || runs[p].dirty);
      var n := RunLength(p);
      d := dirty || s.bits[p].dirty;
      MarkCount(p, n, d);
      s := s.(bits := PutFree(s.bits, p, n, d));
      MarkEnds(g, rp, s0, s, runs, p, d);
      RelabelTurns(runs, p, Free, d);
      runs := Relabel(runs, p, Free, d);
    }

    method MarkCount(p: Page, n: nat, d: bool)
      requires p in runs && n == runs[p].len && p.c in s.chunkDirty && n <= s.nactive
      modifies this`s
      ensures s == MarkState(old(s), runs, p, d, old(s.bits))
    {
      s := s.(nactive := s.nactive - n);
      if d {
        s := s.(chunkDirty := s.chunkDirty[p.c := s.chunkDirty[p.c] + n], ndirty := s.ndirty + n);
      }
    }

    /** Try to coalesce forward. */
    method JoinNext(p: Page, d: bool)
      requires Mid(g, rp, s, runs, p) && runs[p].dirty == d
      modifies this`s, this`runs
      ensures Turned(old(runs), runs, {}, {})
      ensures Mid(g, rp, s, runs, p) && runs[p].dirty == d && NextDiffers(runs, p)
      ensures Used(runs) == Used(old(runs)) && s.nactive == old(s).nactive && s.ndirty == old(s).ndirty
    {
      FirstEntry(s.bits, runs, p);
      LastRunNoNext(g, runs, p);
      var n := s.bits[p].size;
      if p.i + n < g.np {
        var m := Page(p.c, p.i + n);
        FirstEntry(s.bits, runs, m);
        if s.bits[m].Unallocated? && s.bits[m].dirty == d {
          AbsorbNext(p, m, n + s.bits[m].size, d);
        }
      }
    }

    method AbsorbNext(p: Page, m: Page, n: nat, d: bool)
      requires Mid(g, rp, s, runs, p) && m == After(runs, p) && m in runs && runs[m].kind.Free? && runs[p].dirty == d == runs[m].dirty
      requires n == runs[p].len + runs[m].len
      modifies this`s, this`runs
      ensures Turned(old(runs), runs, {}, {})
      ensures Mid(g, rp, s, runs, p) && runs[p].dirty == d && NextDiffers(runs, p)
      ensures Used(runs) == Used(old(runs)) && s.nactive == old(s).nactive && s.ndirty == old(s).ndirty
    {
      ghost var s0 := s;
      JoinBits(g, s.bits, runs, p);
      JoinedNext(g, runs, p);
      UsedJoin(runs, p, d);
      s := WithTree(s, d, Tree(s, d) - {m});
      s := s.(bits := SizeSet(s.bits, p, n));
      s := s.(bits := SizeSet(s.bits, LastOf(p, n), n));
      JoinKeeps(g, rp, s0, runs, p, d, p, s.bits);
      assert s == JoinState(s0, d, m, s.bits);
      MergeTurns(runs, p, d);
      runs := Merge(runs, p, Free, d);
    }

    /** Try to coalesce backward. */
    method JoinPrev(p: Page, d: bool) returns (q: Page)
      requires Mid(g, rp, s, runs, p) && runs[p].dirty == d && NextDiffers(runs, p)
      modifies this`s, this`runs
      ensures Turned(old(runs), runs, {}, {})
      ensures Mid(g, rp, s, runs, q) && runs[q].dirty == d && NextDiffers(runs, q) && PrevDiffers(runs, q) && q.c == p.c
      ensures Used(runs) == Used(old(runs)) && s.nactive == old(s).nactive && s.ndirty == old(s).ndirty
    {
      q := p;
      if p.i > g.bias {
        ghost var o := EntryBefore(g, s.bits, runs, p);
        var e := s.bits[Page(p.c, p.i - 1)];
        assert EndsAt(runs, o, p);
        if e.Unallocated? && e.dirty == d {
          q := Page(p.c, p.i - e.size);
          FirstEntry(s.bits, runs, p);
          AbsorbInto(q, p, e.size + s.bits[p].size, d);
        } else {
          PrevStays(g, runs, o, p);
        }
      } else {
        FirstRunNoPrev(g, runs, p);
      }
    }

    method AbsorbInto(q: Page, p: Page, n: nat, d: bool)
      requires Mid(g, rp, s, runs, p) && EndsAt(runs, q, p) && runs[q].kind.Free? && runs[q].dirty == d == runs[p].dirty && NextDiffers(runs, p)
      requires n == runs[q].len + runs[p].len
      modifies this`s, this`runs
      ensures Turned(old(runs), runs, {}, {})
      ensures Mid(g, rp, s, runs, q) && runs[q].dirty == d && NextDiffers(runs, q) && PrevDiffers(runs, q)
      ensures Used(runs) == Used(old(runs)) && s.nactive == old(s).nactive && s.ndirty == old(s).ndirty
    {
      ghost var s0 := s;
      assert RunOk(g, runs, q);
      JoinBits(g, s.bits, runs, q);
      JoinedPrev(g, runs, q, p);
      UsedJoin(runs, q, d);
      s := WithTree(s, d, Tree(s, d) - {q});
      s := s.(bits := SizeSet(s.bits, q, n));
      s := s.(bits := SizeSet(s.bits, LastOf(q, n), n));
      JoinKeeps(g, rp, s0, runs, q, d, p, s.bits);
      assert s == JoinState(s0, d, q, s.bits);
      MergeTurns(runs, q, d);
      runs := Merge(runs, q, Free, d);
    }

    /** The chunk has become one free run: it is the spare now, and an older spare is given back. */
    method ChunkDealloc(c: nat)
      requires Valid() && WholeFree(g, runs, c) && s.spare != Some(c)
      modifies this`s, this`runs
      ensures Turned(old(runs), runs, {}, {})
      ensures Valid() && s.spare == Some(c) && Used(runs) == Used(old(runs))
      ensures s.nactive == old(s).nactive && s.ndirty <= old(s).ndirty
      ensures old(s).spare.None? ==> runs == old(runs) && s.ndirty == old(s).ndirty
      ensures old(s).spare.Some? ==> runs == old(runs) - {Page(old(s).spare.value, g.bias)}
    {
      var p := Page(c, g.bias);
      FirstEntry(s.bits, runs, p);
      var d := s.bits[p].dirty;
      if s.spare.Some? {
        ReplaceSpare(c, d);
      } else {
        SpareKeeps(g, rp, s, runs, c);
        s := WithTree(s, d, Tree(s, d) - {p});
        s := s.(spare := Some(c));
      }
    }

    method ReplaceSpare(c: nat, d: bool)
      requires Valid() && s.spare.Some? && s.spare != Some(c) && WholeFree(g, runs, c) && runs[Page(c, g.bias)].dirty == d
      modifies this`s, this`runs
      ensures Turned(old(runs), runs, {}, {})
      ensures Valid() && s.spare == Some(c) && Used(runs) == Used(old(runs))
      ensures s.nactive == old(s).nactive && s.ndirty <= old(s).ndirty
      ensures runs == old(runs) - {Page(old(s).spare.value, g.bias)}
    {
      ghost var s0 := s;
      var spare := s.spare.value;
      DiscardDefined(g, rp, s, runs);
      NotListed(s.chunksDirty, spare);
      s := WithTree(s, d, Tree(s, d) - {Page(c, g.bias)});
      s := s.(spare := Some(c));
      if spare in s.chunksDirty {
        s := s.(chunksDirty := RemoveFrom(s.chunksDirty, spare), ndirty := s.ndirty - s.chunkDirty[spare]);
      }
      s := s.(chunkDirty := s.chunkDirty - {spare});
      SpareReplaced(g, rp, s0, s, runs, c, d);
      FewerFree(runs, runs - {Page(spare, g.bias)});
      runs := runs - {Page(spare, g.bias)};
    }

    /** arena_run_dalloc up to the purging; tells whether the run was dirty. */
    method RunRelease(p: Page, dirty: bool) returns (d: bool)
      requires Valid() && p in Used(runs)
      modifies this`s, this`runs
      ensures Turned(old(runs), runs, Only(d, PagesOf(p, old(runs)[p].len)), Only(!d, PagesOf(p, old(runs)[p].len)))
      ensures forall a :: a in PagesOf(p, old(runs)[p].len) ==> FreeAs(runs, d, a) || !Mapped(runs, a)
      ensures Valid() && d == (dirty || old(runs)[p].dirty) && Used(runs) == Used(old(runs)) - {p}
      ensures s.nactive == old(s).nactive - old(runs)[p].len
      ensures s.ndirty <= old(s).ndirty + (if d then old(runs)[p].len else 0)
    {
      d := MarkFree(p, dirty);
      ghost var dirtied, cleaned := Only(d, PagesOf(p, old(runs)[p].len)), Only(!d, PagesOf(p, old(runs)[p].len));
      Settle(p, d, old(runs), dirtied, cleaned);
      forall a | a in PagesOf(p, old(runs)[p].len) ensures FreeAs(runs, d, a) || !Mapped(runs, a) {
        ReleasedPage(g, old(runs), runs, p, dirtied, cleaned, a);
      }
    }

    /** Second part of arena_run_dalloc: coalesce both ways and make the run available. */
    method Settle(p: Page, d: bool, ghost runs0: Runs, ghost dirtied: set<Page>, ghost cleaned: set<Page>)
      requires Mid(g, rp, s, runs, p) && runs[p].dirty == d && Turned(runs0, runs, dirtied, cleaned)
      modifies this`s, this`runs
      ensures Valid() && Used(runs) == Used(old(runs)) && Turned(runs0, runs, dirtied, cleaned)
      ensures s.nactive == old(s).nactive && s.ndirty <= old(s).ndirty
    {
      JoinNext(p, d);
      ghost var runs1 := runs;
      TurnedOn(runs0, old(runs), runs1, dirtied, cleaned, {}, {});
      var q := JoinPrev(p, d);
      ghost var runs2 := runs;
      TurnedOn(runs0, runs1, runs2, dirtied + {}, cleaned + {}, {}, {});
      Close(q, d);
      TurnedOn(runs0, runs2, runs, dirtied + {} + {}, cleaned + {} + {}, {}, {});
      assert dirtied + {} + {} + {} == dirtied && cleaned + {} + {} + {} == cleaned;
    }

    /** The coalesced run becomes available; a chunk that is all free becomes the spare. */
    method Close(q: Page, d: bool)
      requires Mid(g, rp, s, runs, q) && runs[q].dirty == d && NextDiffers(runs, q) && PrevDiffers(runs, q)
      modifies this`s, this`runs
      ensures Valid() && Used(runs) == Used(old(runs)) && Turned(old(runs), runs, {}, {})
      ensures s.nactive == old(s).nactive && s.ndirty <= old(s).ndirty
    {
      FirstEntry(s.bits, runs, q);
      var n := s.bits[q].size;
      CloseKeeps(g, rp, s, runs, q);
      s := WithTree(s, d, Tree(s, d) + {q});
      if d && q.c !in s.chunksDirty {
        s := s.(chunksDirty := s.chunksDirty + [q.c]);
      }
      if n == g.MaxLen() {
        assert RunOk(g, runs, q);
        ChunkDealloc(q.c);
      }
    }

    /** arena_chunk_alloc: the spare, or else a new chunk if there is one. */
    method ChunkAlloc(newChunk: Option<nat>) returns (c: Option<nat>)
      requires Valid() && (newChunk.Some? ==> NoRunsIn(runs, newChunk.value))
      modifies this`s, this`runs
      ensures Valid() && Used(runs) == Used(old(runs)) && s.nactive == old(s).nactive && s.ndirty == old(s).ndirty
      ensures c.Some? ==> WholeFree(g, runs, c.value) && s.spare != c
      ensures c.None? <==> old(s).spare.None? && newChunk.None?
      ensures c.None? ==> s == old(s) && runs == old(runs)
      ensures Turned(old(runs), runs, {}, NewPages(g, newChunk))
      ensures old(s).spare.Some? ==> c == old(s).spare && runs == old(runs) && s.chunkDirty == old(s).chunkDirty && s.chunksDirty == old(s).chunksDirty && s.spare.None?
    {
      if s.spare.Some? {
        c := s.spare;
        var p := Page(c.value, g.bias);
        FirstEntry(s.bits, runs, p);
        TakeSpareKeeps(g, rp, s, runs);
        var d := s.bits[p].dirty;
        s := s.(spare := None);
        s := WithTree(s, d, Tree(s, d) + {p});
      } else if newChunk.Some? {
        c := newChunk;
        var p := Page(c.value, g.bias);
        PutFreeShows(s.bits, p, g.MaxLen(), false);
        NewChunkKeeps(g, rp, s, runs, c.value, PutFree(s.bits, p, g.MaxLen(), false));
        s := s.(chunkDirty := s.chunkDirty[c.value := 0], bits := PutFree(s.bits, p, g.MaxLen(), false), clean := s.clean + {p});
        NewTurns(runs, p, g.MaxLen());
        runs := WithChunk(g, runs, c.value);
      } else {
        c := None;
      }
    }

    /** nsearch in one of the trees. */
    method FindFit(d: bool, n: nat) returns (r: Option<Page>)
      requires Valid()
      ensures r.None? <==> forall q :: q in Tree(s, d) ==> runs[q].len < n
      ensures r.Some? ==> r.value in Tree(s, d) && n <= runs[r.value].len
      ensures r.Some? ==> forall q :: q in Tree(s, d) && n <= runs[q].len ==> NotAfter(runs[r.value].len, r.value, runs[q].len, q)
    {
      TreeEntries(s, runs, d);
      var fits := set q | q in Tree(s, d) && n <= s.bits[q].size;
      if fits == {} {
        forall q | q in Tree(s, d) ensures runs[q].len < n {
          assert q !in fits;
        }
        return None;
      }
      ghost var least := LeastExists(s.bits, fits);
      var p :| p in fits && IsLeast(s.bits, fits, p);
      assert p in Tree(s, d);
      forall q | q in Tree(s, d) && n <= runs[q].len ensures NotAfter(runs[p].len, p, runs[q].len, q) {
        assert q in fits;
        LeastIs(s.bits, fits, p, q);
      }
      r := Some(p);
    }

    /** arena_run_alloc_helper. */
    method RunAllocHelper(n: nat, kind: Kind) returns (r: Option<Page>)
      requires Valid() && n > 0 && !kind.Free? && SmallKind(rp, kind, n)
      modifies this`s, this`runs
      ensures Valid()
      ensures r.None? <==> forall q :: q in old(s).dirty || q in old(s).clean ==> old(runs)[q].len < n
      ensures r.None? ==> s == old(s) && runs == old(runs)
      ensures Turned(old(runs), runs, {}, {})
      ensures r.Some? ==> BestFit(old(s), old(runs), n, r.value)
      ensures r.Some? ==> CameFrom(old(runs), r.value, n, r.value in old(s).dirty, {})
      ensures r.Some? ==> r.value !in Used(old(runs)) && Used(runs) == Used(old(runs))[r.value := Run(n, kind, r.value in old(s).dirty)]
      ensures r.Some? ==> s.nactive == old(s).nactive + n && s.ndirty == old(s).ndirty - (if r.value in old(s).dirty then n else 0)
    {
      r := FindFit(true, n);
      if r.None? {
        r := FindFit(false, n);
      }
      if r.Some? {
        SplitCame(runs, r.value, n);
        RunSplit(r.value, n, kind);
      }
    }

    /** arena_run_alloc. */
    method RunAlloc(n: nat, kind: Kind, newChunk: Option<nat>) returns (r: Option<Page>)
      requires Valid() && 0 < n <= g.MaxLen() && !kind.Free? && SmallKind(rp, kind, n)
      requires newChunk.Some? ==> NoRunsIn(runs, newChunk.value)
      modifies this`s, this`runs
      ensures Valid()
      ensures r.None? ==> s == old(s) && runs == old(runs)
      ensures r.None? <==> newChunk.None? && Exhausted(old(s), old(runs), n)
      ensures r.Some? ==> r.value !in Used(old(runs)) && r.value in Used(runs) && runs[r.value].len == n && runs[r.value].kind == kind
      ensures r.Some? ==> Used(runs) == Used(old(runs))[r.value := runs[r.value]]
      ensures r.Some? ==> s.nactive == old(s).nactive + n && s.ndirty == old(s).ndirty - (if runs[r.value].dirty then n else 0)
      ensures r.Some? && (exists q :: q in old(s).dirty + old(s).clean && n <= old(runs)[q].len) ==> BestFit(old(s), old(runs), n, r.value)
      ensures Turned(old(runs), runs, {}, NewPages(g, newChunk))
      ensures r.Some? ==> CameFrom(old(runs), r.value, n, runs[r.value].dirty, NewPages(g, newChunk))
    {
      r := RunAllocHelper(n, kind);
      if r.Some? {
        return;
      }
      var c := ChunkAlloc(newChunk);
      if c.Some? {
        r := Some(Page(c.value, g.bias));
        SplitChunk(r.value, n, kind, old(runs), NewPages(g, newChunk));
        return;
      }
      r := RunAllocHelper(n, kind);
    }

    /** The run is cut from the front of a chunk that is all free. */
    method SplitChunk(p: Page, n: nat, kind: Kind, ghost runs0: Runs, ghost w: set<Page>)
      requires CanSplit(g, rp, s, runs, p, n, kind) && Turned(runs0, runs, {}, w)
      modifies this`s, this`runs
      ensures Valid() && Turned(runs0, runs, {}, w) && CameFrom(runs0, p, n, old(runs)[p].dirty, w)
      ensures p !in Used(old(runs)) && Used(runs) == Used(old(runs))[p := Run(n, kind, old(runs)[p].dirty)]
      ensures s.nactive == old(s).nactive + n && s.ndirty == old(s).ndirty - (if old(runs)[p].dirty then n else 0)
    {
      SplitCame(runs, p, n);
      CameFurther(runs0, runs, p, n, runs[p].dirty, w);
      RunSplit(p, n, kind);
      TurnedOn(runs0, old(runs), runs, {}, w, {}, {});
      assert w + {} == w;
    }

    /** A large run becomes two, so that one of them can be given back. */
    method DivideRun(p: Page, n: nat)
      requires Valid() && p in Used(runs) && runs[p].kind.Large? && 0 < n < runs[p].len
      modifies this`s, this`runs
      ensures Turned(old(runs), runs, {}, {})
      ensures Valid() && s == old(s).(bits := s.bits)
      ensures Used(runs) == Used(old(runs))[p := Run(n, Large, old(runs)[p].dirty)][Page(p.c, p.i + n) := Run(old(runs)[p].len - n, Large, old(runs)[p].dirty)]
      ensures Page(p.c, p.i + n) !in old(runs)
    {
      DivideReady(g, rp, s, runs, p, n);
      var len, d := s.bits[p].size, s.bits[p].dirty;
      s := s.(bits := s.bits[LastOf(p, n) := LargeBits(0, d)]);
      s := s.(bits := s.bits[p := LargeBits(n, d)]);
      s := s.(bits := s.bits[Page(p.c, p.i + n) := LargeBits(len - n, d)]);
      runs := Divide(runs, p, n, Large, Large, d);
    }

    /** Walk over a chunk and put its free dirty runs to use as clean ones. */
    method Stash(c: nat) returns (stash: seq<Page>)
      requires Valid() && c in s.chunkDirty && s.spare != Some(c)
      modifies this`s, this`runs
      ensures Turned(old(runs), runs, {}, {})
      ensures Purging(g, rp, s, runs, c) && StashOk(old(s), s, runs, Used(old(runs)), stash)
      ensures forall p :: p in runs && p.c == c ==> !(runs[p].kind.Free? && runs[p].dirty)
      ensures WereDirty(old(runs), StashPages(runs, stash))
    {
      StashBegins(g, rp, s, runs, c);
      ghost var end;
      stash, end := Walk(c, Used(runs));
      WalkedAll(g, runs, c, end);
    }

    method Walk(c: nat, ghost used: Runs) returns (stash: seq<Page>, ghost end: nat)
      requires Purging(g, rp, s, runs, c) && Walked(g, runs, c, g.bias) && StashOk(s, s, runs, used, []) && StashSound(runs, runs, [])
      modifies this`s, this`runs
      ensures Purging(g, rp, s, runs, c) && Walked(g, runs, c, end) && end >= g.np
      ensures StashOk(old(s), s, runs, used, stash) && StashSound(old(runs), runs, stash)
    {
      stash := [];
      var i := g.bias;
      while i < g.np
        invariant Purging(g, rp, s, runs, c) && Walked(g, runs, c, i)
        invariant StashOk(old(s), s, runs, used, stash) && StashSound(old(runs), runs, stash)
      {
        var n;
        n, stash := StashAt(Page(c, i), stash, used, old(s), old(runs));
        i := i + n;
      }
      end := i;
    }

    /** One step of the walk: skip a run, or stash it if it is free and dirty. */
    method StashAt(p: Page, stash: seq<Page>, ghost used: Runs, ghost s0: State, ghost runs0: Runs) returns (n: nat, stash': seq<Page>)
      requires Purging(g, rp, s, runs, p.c) && Walked(g, runs, p.c, p.i) && p.i < g.np
      requires StashOk(s0, s, runs, used, stash) && StashSound(runs0, runs, stash)
      modifies this`s, this`runs
      ensures Purging(g, rp, s, runs, p.c) && Walked(g, runs, p.c, p.i + n) && n > 0
      ensures StashOk(s0, s, runs, used, stash') && StashSound(runs0, runs, stash')
    {
      FirstEntry(s.bits, runs, p);
      stash' := stash;
      if s.bits[p].SmallBits? {
        n := rp[s.bits[p].bin];
      } else {
        n := s.bits[p].size;
        if s.bits[p].Unallocated? && s.bits[p].dirty {
          StashOne(p, n, stash, used);
          stash' := stash + [p];
          StashStep(runs0, old(runs), runs, stash, p);
        }
      }
      WalkOn(g, old(runs), runs, p.c, p.i);
    }

    method StashOne(p: Page, n: nat, ghost stash: seq<Page>, ghost used: Runs)
      requires Purging(g, rp, s, runs, p.c) && p in runs && runs[p].kind.Free? && runs[p].dirty && n == runs[p].len
      requires Stashed(runs, used, stash)
      modifies this`s, this`runs
      ensures Turned(old(runs), runs, {}, {})
      ensures Purging(g, rp, s, runs, p.c) && runs == Relabel(old(runs), p, Large, false) && Stashed(runs, used, stash + [p])
      ensures s.ndirty == old(s).ndirty && s.chunkDirty == old(s).chunkDirty && s.chunksDirty == old(s).chunksDirty
      ensures s.nactive == old(s).nactive + n && Lengths(runs, stash + [p]) == Lengths(old(runs), stash) + n
    {
      ghost var s0 := s;
      assert RunOk(g, runs, p);
      s := s.(dirty := s.dirty - {p});
      s := s.(bits := PutLarge(s.bits, p, n, false));
      s := s.(nactive := s.nactive + n);
      StashEnds(g, rp, s0, s, runs, p, used, stash);
      RelabelTurns(runs, p, Large, false);
      runs := Relabel(runs, p, Large, false);
    }

    /**
     * arena_chunk_purge: the dirty runs of the chunk are put to use, counted off, purged and
     * given back clean.  All runs in use are the same afterwards.  Only purged pages have become
     * clean, and only dirty pages are purged.
     */
    method ChunkPurge(c: nat) returns (ghost purged: set<Page>)
      requires Valid() && c in s.chunksDirty && s.chunkDirty[c] > 0
      modifies this`s, this`runs
      ensures Turned(old(runs), runs, {}, purged) && WereDirty(old(runs), purged)
      ensures Valid() && Used(runs) == Used(old(runs)) && s.nactive == old(s).nactive
      ensures s.ndirty + old(s).chunkDirty[c] <= old(s).ndirty
    {
      var stash := PurgeBegin(c);
      purged := PurgeStash(stash);
      ghost var runs1 := runs;
      ReleaseStash(stash, Used(old(runs)));
      TurnedOn(old(runs), runs1, runs, {}, {}, {}, purged);
      assert {} + purged == purged;
    }

    /** arena_chunk_purge up to where the lock is dropped: the dirty runs are in the thread's hand. */
    method PurgeBegin(c: nat) returns (stash: seq<Page>)
      requires Valid() && c in s.chunksDirty && s.chunkDirty[c] > 0
      modifies this`s, this`runs
      ensures Valid() && Stashed(runs, Used(old(runs)), stash) && Turned(old(runs), runs, {}, {})
      ensures s.nactive == old(s).nactive + Lengths(runs, stash) && s.ndirty == old(s).ndirty - old(s).chunkDirty[c]
      ensures WereDirty(old(runs), StashPages(runs, stash))
    {
      WakeSpare(c);
      stash := Stash(c);
      CountOff(c);
    }

    /** The loop without the lock: every stashed run is purged. */
    method PurgeStash(stash: seq<Page>) returns (ghost purged: set<Page>)
      requires Valid() && forall p :: p in stash ==> p in runs && runs[p].kind.Large?
      ensures purged == StashPages(runs, stash)
    {
      purged := {};
      assert stash[..0] == [];
      for i := 0 to |stash|
        invariant purged == StashPages(runs, stash[..i])
      {
        FirstEntry(s.bits, runs, stash[i]);
        var n := s.bits[stash[i]].size;
        StashPagesAppend(runs, stash[..i], stash[i]);
        assert stash[..i + 1] == stash[..i] + [stash[i]];
        purged := purged + PagesOf(stash[i], n);
      }
      assert stash[..|stash|] == stash;
    }

    /** The chunk has no dirty pages left and is taken off the list. */
    method CountOff(c: nat)
      requires Purging(g, rp, s, runs, c)
      requires forall p :: p in runs && p.c == c ==> !(runs[p].kind.Free? && runs[p].dirty)
      modifies this`s
      ensures Valid() && s.nactive == old(s).nactive && s.ndirty == old(s).ndirty - old(s).chunkDirty[c]
    {
      PurgedKeeps(g, rp, s, runs, c);
      s := s.(ndirty := s.ndirty - s.chunkDirty[c]);
      s := s.(chunkDirty := s.chunkDirty[c := 0]);
      s := s.(chunksDirty := RemoveFrom(s.chunksDirty, c));
    }

    /** The spare chunk is put to use again, so that its run can be stashed. */
    method WakeSpare(c: nat)
      requires Valid()
      modifies this`s, this`runs
      ensures Valid() && s.spare != Some(c) && runs == old(runs)
      ensures s.nactive == old(s).nactive && s.ndirty == old(s).ndirty && s.chunkDirty == old(s).chunkDirty && s.chunksDirty == old(s).chunksDirty
    {
      if s.spare == Some(c) {
        var _ := ChunkAlloc(None);
      }
    }

    /** The stashed runs are freed, clean. */
    method ReleaseStash(stash: seq<Page>, ghost used: Runs)
      requires Valid() && Stashed(runs, used, stash)
      modifies this`s, this`runs
      ensures Turned(old(runs), runs, {}, StashPages(old(runs), stash))
      ensures Valid() && Used(runs) == used
      ensures s.nactive == old(s).nactive - Lengths(old(runs), stash) && s.ndirty <= old(s).ndirty
    {
      var rest := stash;
      while rest != []
        invariant Valid() && Stashed(runs, used, rest) && Turned(old(runs), runs, {}, StashPages(old(runs), stash))
        invariant StashPages(runs, rest) <= StashPages(old(runs), stash)
        invariant s.nactive + Lengths(old(runs), stash) == old(s).nactive + Lengths(runs, rest) && s.ndirty <= old(s).ndirty
      {
        StashedFirst(runs, used, rest);
        ghost var runs0 := runs;
        var d := RunRelease(rest[0], false);
        StashedRest(runs0, runs, used, rest);
        TurnedOn(old(runs), runs0, runs, {}, StashPages(old(runs), stash), {}, PagesOf(rest[0], runs0[rest[0]].len));
        assert StashPages(old(runs), stash) + PagesOf(rest[0], runs0[rest[0]].len) == StashPages(old(runs), stash);
        rest := rest[1..];
      }
      assert (set p | p in rest) == {};
    }

    /** The first listed chunk with dirty pages; chunks without are taken off the list. */
    method NextDirty() returns (c: Option<nat>)
      requires Valid()
      modifies this`s
      ensures Valid() && s == old(s).(chunksDirty := s.chunksDirty)
      ensures c.None? ==> s.ndirty == 0
      ensures c.Some? ==> c.value in s.chunksDirty && c.value in s.chunkDirty && s.chunkDirty[c.value] > 0
    {
      while s.chunksDirty != []
        invariant Valid() && s == old(s).(chunksDirty := s.chunksDirty)
        decreases |s.chunksDirty|
      {
        var chunk := s.chunksDirty[0];
        if s.chunkDirty[chunk] != 0 {
          return Some(chunk);
        }
        RemoveShrinks(s.chunksDirty, chunk);
        ListDropsClean(g, rp, s, runs, chunk);
        s := s.(chunksDirty := RemoveFrom(s.chunksDirty, chunk));
      }
      NoneDirty(g, rp, s, runs);
      c := None;
    }

    /**
     * arena_purge.  Without `all`, enough is purged to be back at the allowed fraction.  The
     * commitment in `npurgatory` is withdrawn at the end, and the runs in use are the same.
     */
    method Purge(all: bool) returns (ghost purged: set<Page>)
      requires Valid() && npurgatory <= s.ndirty
      requires all || (lgDirtyMult >= 0 && Allowed(s.nactive, lgDirtyMult) <= s.ndirty - npurgatory)
      modifies this`s, this`runs, this`npurgatory
      ensures Turned(old(runs), runs, {}, purged) && WereDirty(old(runs), purged)
      ensures Valid() && Used(runs) == Used(old(runs)) && s.nactive == old(s).nactive && npurgatory == old(npurgatory)
      ensures s.ndirty <= old(npurgatory) + (if all then 0 else Allowed(s.nactive, lgDirtyMult))
    {
      var n: nat := s.ndirty - npurgatory;
      if !all {
        n := n - Allowed(s.nactive, lgDirtyMult);
      }
      ghost var base := s.ndirty - n;
      npurgatory := npurgatory + n;
      purged := {};
      while n > 0
        invariant Valid() && Used(runs) == Used(old(runs)) && s.nactive == old(s).nactive
        invariant Turned(old(runs), runs, {}, purged) && WereDirty(old(runs), purged)
        invariant npurgatory == old(npurgatory) + n && s.ndirty <= base + n
        decreases n
      {
        var next := NextDirty();
        if next.None? {
          npurgatory := npurgatory - n;
          return;
        }
        var c := next.value;
        if s.chunkDirty[c] > n {
          npurgatory := npurgatory + (s.chunkDirty[c] - n);
          n := s.chunkDirty[c];
        }
        npurgatory := npurgatory - s.chunkDirty[c];
        n := n - s.chunkDirty[c];
        ghost var runs0 := runs;
        ghost var more := ChunkPurge(c);
        TurnedOn(old(runs), runs0, runs, {}, purged, {}, more);
        assert WereDirty(old(runs), more);
        purged := purged + more;
      }
    }

    /** arena_maybe_purge, with no other purge under way. */
    method MaybePurge() returns (ghost purged: set<Page>)
      requires Valid() && npurgatory == 0
      modifies this`s, this`runs, this`npurgatory
      ensures Turned(old(runs), runs, {}, purged) && WereDirty(old(runs), purged)
      ensures Valid() && Used(runs) == Used(old(runs)) && s.nactive == old(s).nactive && npurgatory == 0
      ensures Bounded(g, lgDirtyMult, s)
    {
      if lgDirtyMult >= 0 && s.ndirty > npurgatory && s.ndirty - npurgatory > g.np && Allowed(s.nactive, lgDirtyMult) < s.ndirty - npurgatory {
        purged := Purge(false);
      } else {
        purged := {};
      }
    }

    /** arena_purge_all leaves no dirty page. */
    method PurgeAll() returns (ghost purged: set<Page>)
      requires Valid() && npurgatory == 0
      modifies this`s, this`runs, this`npurgatory
      ensures Valid() && Used(runs) == Used(old(runs)) && s.nactive == old(s).nactive && npurgatory == 0 && s.ndirty == 0
      ensures Turned(old(runs), runs, {}, purged) && WereDirty(old(runs), purged)
    {
      purged := Purge(true);
    }

    /** arena_run_dalloc. */
    method RunDalloc(p: Page, dirty: bool) returns (ghost purged: set<Page>)
      requires Valid() && p in Used(runs) && npurgatory == 0
      modifies this`s, this`runs, this`npurgatory
      ensures Released(old(runs), runs, p, old(runs)[p].len, dirty || old(runs)[p].dirty, purged)
      ensures Valid() && Used(runs) == Used(old(runs)) - {p} && npurgatory == 0
      ensures s.nactive == old(s).nactive - old(runs)[p].len
      ensures if dirty || old(runs)[p].dirty then Bounded(g, lgDirtyMult, s) else s.ndirty <= old(s).ndirty
    {
      var d := RunRelease(p, dirty);
      ghost var runs1 := runs;
      purged := {};
      if d {
        purged := MaybePurge();
      }
      ThenPurged(old(runs), runs1, runs, p, old(runs)[p].len, d, purged);
    }

    /** arena_run_trim_head up to the purging; tells whether the head was dirty. */
    method CutHead(p: Page, newLen: nat) returns (d: bool)
      requires Valid() && p in Used(runs) && runs[p].kind.Large? && 0 < newLen < runs[p].len
      modifies this`s, this`runs
      ensures Valid() && d == old(runs)[p].dirty
      ensures var n := old(runs)[p].len - newLen;
        && Used(runs) == (Used(old(runs)) - {p})[Page(p.c, p.i + n) := Run(newLen, Large, d)] && Page(p.c, p.i + n) !in old(runs)
        && Turned(old(runs), runs, Only(d, PagesOf(p, n)), Only(!d, PagesOf(p, n)))
    {
      FirstEntry(s.bits, runs, p);
      var n := s.bits[p].size - newLen;
      CutUsed(Used(runs), p, Page(p.c, p.i + n), Run(n, Large, runs[p].dirty), Run(newLen, Large, runs[p].dirty));
      DivideRun(p, n);
      ghost var runs1 := runs;
      d := RunRelease(p, false);
      ghost var w := PagesOf(p, n);
      TurnedOn(old(runs), runs1, runs, {}, {}, Only(d, w), Only(!d, w));
      assert {} + Only(d, w) == Only(d, w) && {} + Only(!d, w) == Only(!d, w);
    }

    /** arena_run_trim_tail up to the purging; tells whether the tail was given back dirty. */
    method CutTail(p: Page, newLen: nat, dirty: bool) returns (d: bool)
      requires Valid() && p in Used(runs) && runs[p].kind.Large? && 0 < newLen < runs[p].len
      modifies this`s, this`runs
      ensures Valid() && d == (dirty || old(runs)[p].dirty)
      ensures Used(runs) == Used(old(runs))[p := Run(newLen, Large, old(runs)[p].dirty)]
      ensures s.nactive == old(s).nactive - (old(runs)[p].len - newLen)
      ensures var w := PagesOf(Page(p.c, p.i + newLen), old(runs)[p].len - newLen);
        Turned(old(runs), runs, Only(d, w), Only(!d, w))
    {
      var q := Page(p.c, p.i + newLen);
      DivideRun(p, newLen);
      ghost var runs1 := runs;
      ghost var w := PagesOf(q, old(runs)[p].len - newLen);
      d := RunRelease(q, dirty);
      TurnedOn(old(runs), runs1, runs, {}, {}, Only(d, w), Only(!d, w));
      assert {} + Only(d, w) == Only(d, w) && {} + Only(!d, w) == Only(!d, w);
    }

    /** arena_run_trim_head: the run now starts later. */
    method TrimHead(p: Page, newLen: nat) returns (ghost purged: set<Page>)
      requires Valid() && p in Used(runs) && runs[p].kind.Large? && 0 < newLen < runs[p].len && npurgatory == 0
      modifies this`s, this`runs, this`npurgatory
      ensures Valid() && npurgatory == 0
      ensures var n := old(runs)[p].len - newLen; var d := old(runs)[p].dirty;
        && Used(runs) == (Used(old(runs)) - {p})[Page(p.c, p.i + n) := Run(newLen, Large, d)]
        && s.nactive == old(s).nactive - n
        && (if d then Bounded(g, lgDirtyMult, s) else s.ndirty <= old(s).ndirty)
        && Released(old(runs), runs, p, n, d, purged)
    {
      FirstEntry(s.bits, runs, p);
      var n := s.bits[p].size - newLen;
      DivideRun(p, n);
      ghost var runs1 := runs;
      purged := RunDalloc(p, false);
      DividedFirst(old(runs), runs1, runs, p, n, runs1[p].dirty, purged);
    }

    /** arena_run_trim_tail: the run ends earlier. */
    method TrimTail(p: Page, newLen: nat, dirty: bool) returns (ghost purged: set<Page>)
      requires Valid() && p in Used(runs) && runs[p].kind.Large? && 0 < newLen < runs[p].len && npurgatory == 0
      modifies this`s, this`runs, this`npurgatory
      ensures Valid() && npurgatory == 0
      ensures var n := old(runs)[p].len - newLen; var d := old(runs)[p].dirty;
        && Used(runs) == Used(old(runs))[p := Run(newLen, Large, d)]
        && s.nactive == old(s).nactive - n
        && (if dirty || d then Bounded(g, lgDirtyMult, s) else s.ndirty <= old(s).ndirty)
        && Released(old(runs), runs, Page(p.c, p.i + newLen), n, dirty || d, purged)
    {
      DivideRun(p, newLen);
      ghost var runs1 := runs;
      var q := Page(p.c, p.i + newLen);
      purged := RunDalloc(q, dirty);
      DividedFirst(old(runs), runs1, runs, q, runs1[q].len, dirty || runs1[q].dirty, purged);
    }

    /** arena_dalloc_large. */
    method DallocLarge(p: Page) returns (ghost purged: set<Page>)
      requires Valid() && p in Used(runs) && runs[p].kind.Large? && npurgatory == 0
      modifies this`s, this`runs, this`npurgatory
      ensures Valid() && Used(runs) == Used(old(runs)) - {p} && npurgatory == 0 && Bounded(g, lgDirtyMult, s)
      ensures Released(old(runs), runs, p, old(runs)[p].len, true, purged)
    {
      purged := RunDalloc(p, true);
    }

    /** arena_ralloc_large_shrink. */
    method ShrinkLarge(p: Page, newLen: nat) returns (ghost purged: set<Page>)
      requires Valid() && p in Used(runs) && runs[p].kind.Large? && 0 < newLen < runs[p].len && npurgatory == 0
      modifies this`s, this`runs, this`npurgatory
      ensures Valid() && npurgatory == 0 && Bounded(g, lgDirtyMult, s)
      ensures Used(runs) == Used(old(runs))[p := Run(newLen, Large, old(runs)[p].dirty)]
      ensures Released(old(runs), runs, Page(p.c, p.i + newLen), old(runs)[p].len - newLen, true, purged)
    {
      purged := TrimTail(p, newLen, true);
    }

    /** arena_malloc_large. */
    method MallocLarge(n: nat, newChunk: Option<nat>) returns (r: Option<Page>)
      requires Valid() && 0 < n <= g.MaxLen() && (newChunk.Some? ==> NoRunsIn(runs, newChunk.value)) && Bounded(g, lgDirtyMult, s)
      modifies this`s, this`runs
      ensures Valid() && Bounded(g, lgDirtyMult, s)
      ensures r.None? ==> s == old(s) && runs == old(runs)
      ensures r.None? <==> newChunk.None? && Exhausted(old(s), old(runs), n)
      ensures r.Some? ==> r.value !in Used(old(runs)) && r.value in runs && Used(runs) == Used(old(runs))[r.value := Run(n, Large, runs[r.value].dirty)]
      ensures Turned(old(runs), runs, {}, NewPages(g, newChunk))
    {
      r := RunAlloc(n, Large, newChunk);
      BoundedKept(g, lgDirtyMult, old(s), s);
    }

    /**
     * arena_ralloc_large_grow: in place, if the next run is free and long enough.  The
     * difference `size - oldsize` wraps when it is negative, and then nothing fits.
     */
    method GrowLarge(p: Page, size: nat, extra: nat) returns (failed: bool)
      requires Valid() && p in Used(runs) && runs[p].kind.Large? && size + extra > runs[p].len
      requires g.np < WRAP && size < WRAP
      modifies this`s, this`runs
      ensures Valid() && (old(Bounded(g, lgDirtyMult, s)) ==> Bounded(g, lgDirtyMult, s)) && Turned(old(runs), runs, {}, {})
      ensures failed ==> s == old(s) && runs == old(runs)
      ensures !failed <==> CanGrow(old(runs), p, size)
      ensures !failed ==> Used(runs) == Used(old(runs))[p := Grown(old(runs), p, size + extra)]
    {
      FirstEntry(s.bits, runs, p);
      LastRunNoNext(g, runs, p);
      var len := s.bits[p].size;
      failed := true;
      if p.i + len < g.np {
        var m := Page(p.c, p.i + len);
        assert RunOk(g, runs, m);
        FirstEntry(s.bits, runs, m);
        WrapTells(size, len, s.bits[m]);
        if s.bits[m].Unallocated? && s.bits[m].size >= (size - len) % WRAP {
          var follow := s.bits[m].size;
          GrowInto(p, m, if len + follow <= size + extra then follow else size + extra - len);
          failed := false;
        }
      }
    }

    /** The first `n` pages of the following run join the run. */
    method GrowInto(p: Page, m: Page, n: nat)
      requires Valid() && p in Used(runs) && runs[p].kind.Large? && m == After(runs, p) && m in runs && runs[m].kind.Free? && 0 < n <= runs[m].len
      modifies this`s, this`runs
      ensures Valid() && (old(Bounded(g, lgDirtyMult, s)) ==> Bounded(g, lgDirtyMult, s)) && Turned(old(runs), runs, {}, {})
      ensures Used(runs) == Used(old(runs))[p := Run(old(runs)[p].len + n, Large, old(runs)[p].dirty || old(runs)[m].dirty)]
    {
      ghost var s0, runs0 := s, runs;
      InUseNotSpare(g, s, runs, p);
      RunSplit(m, n, Large);
      if Bounded(g, lgDirtyMult, s0) {
        BoundedKept(g, lgDirtyMult, s0, s);
      }
      SplitAfter(runs0, runs, p, n);
      ghost var runs1 := runs;
      MergeNext(p, n);
      TurnedOn(runs0, runs1, runs, {}, {}, {}, {});
    }

    /** Two neighbouring large runs become one, dirty if either was. */
    method MergeNext(p: Page, n: nat)
      requires Valid() && p in runs && runs[p].kind.Large? && After(runs, p) in runs && runs[After(runs, p)].kind.Large? && runs[After(runs, p)].len == n
      modifies this`s, this`runs
      ensures Valid() && s == old(s).(bits := s.bits) && Turned(old(runs), runs, {}, {})
      ensures Used(runs) == (Used(old(runs)) - {After(old(runs), p)})[p := Run(old(runs)[p].len + n, Large, old(runs)[p].dirty || old(runs)[After(old(runs), p)].dirty)]
    {
      GrowReady(g, rp, s, runs, p, n);
      var len := s.bits[p].size + n;
      var d := s.bits[p].dirty || s.bits[LastOf(p, len)].dirty;
      GrownShows(s.bits, p, len, d);
      MergeLarge(g, rp, s, runs, p, d, s.bits[p := LargeBits(len, d)][LastOf(p, len) := LargeBits(0, d)]);
      UsedMerge(runs, p, d);
      FewerFree(runs, Merge(runs, p, Large, d));
      s := s.(bits := s.bits[p := LargeBits(len, d)]);
      s := s.(bits := s.bits[LastOf(p, len) := LargeBits(0, d)]);
      runs := Merge(runs, p, Large, d);
    }

    /**
     * arena_palloc: a run with room to spare is allocated and trimmed at both ends.  The
     * result has exactly the length asked for and its address is a multiple of `al` pages.
     */
    method Palloc(n: nat, al: nat, newChunk: Option<nat>) returns (r: Option<Page>)
      requires Valid() && n > 0 && al > 0 && n + al - 1 <= g.MaxLen() && (newChunk.Some? ==> NoRunsIn(runs, newChunk.value))
      requires Bounded(g, lgDirtyMult, s) && npurgatory == 0
      modifies this`s, this`runs, this`npurgatory
      ensures Valid() && Bounded(g, lgDirtyMult, s) && npurgatory == 0
      ensures r.None? ==> s == old(s) && runs == old(runs)
      ensures r.None? <==> newChunk.None? && Exhausted(old(s), old(runs), n + al - 1)
      ensures r.Some? ==> Multiple(Address(g, r.value), al) && r.value !in Used(old(runs))
      ensures r.Some? ==> r.value in runs && Used(runs) == Used(old(runs))[r.value := Run(n, Large, runs[r.value].dirty)]
    {
      var allocLen := n + al - 1;
      r := RunAlloc(allocLen, Large, newChunk);
      if r.None? {
        return;
      }
      BoundedKept(g, lgDirtyMult, old(s), s);
      ghost var used := Used(runs);
      assert used - {r.value} == Used(old(runs));
      var p := AlignRun(r.value, n, al, old(s));
      r := Some(p);
    }

    /** The aligned part of a run is kept, and what lies around it goes back. */
    method AlignRun(run: Page, n: nat, al: nat, ghost s0: State) returns (p: Page)
      requires Valid() && run in Used(runs) && runs[run].kind.Large? && n > 0 && al > 0 && runs[run].len == n + al - 1
      requires npurgatory == 0 && Bounded(g, lgDirtyMult, s) && Bounded(g, lgDirtyMult, s0)
      requires s0.nactive + runs[run].len == s.nactive && s.ndirty <= s0.ndirty
      modifies this`s, this`runs, this`npurgatory
      ensures Valid() && Bounded(g, lgDirtyMult, s) && npurgatory == 0 && Multiple(Address(g, p), al)
      ensures p !in Used(old(runs)) - {run} && p in runs
      ensures Used(runs) == (Used(old(runs)) - {run})[p := Run(n, Large, runs[p].dirty)]
    {
      var lead := Lead(g, run, al);
      LeadFits(g, run, n, al);
      ghost var d := runs[run].dirty;
      p := Page(run.c, run.i + lead);
      TrimBoth(run, lead, n);
      assert p in Used(runs);
      if !d {
        BoundedKept(g, lgDirtyMult, s0, s);
      }
    }

    /** What lies before and behind the aligned part goes back. */
    method TrimBoth(p: Page, lead: nat, n: nat)
      requires Valid() && p in Used(runs) && runs[p].kind.Large? && n > 0 && lead + n <= runs[p].len
      requires npurgatory == 0 && Bounded(g, lgDirtyMult, s)
      modifies this`s, this`runs, this`npurgatory
      ensures Valid() && npurgatory == 0
      ensures Used(runs) == (Used(old(runs)) - {p})[Page(p.c, p.i + lead) := Run(n, Large, old(runs)[p].dirty)]
      ensures lead > 0 ==> Page(p.c, p.i + lead) !in Used(old(runs))
      ensures s.nactive == old(s).nactive - (old(runs)[p].len - n)
      ensures if old(runs)[p].dirty then Bounded(g, lgDirtyMult, s) else s.ndirty <= old(s).ndirty
    {
      FirstEntry(s.bits, runs, p);
      var trail := s.bits[p].size - lead - n;
      var q := Page(p.c, p.i + lead);
      if lead != 0 {
        NoneInside(g, runs, p, lead);
        ghost var _ := TrimHead(p, n + trail);
        assert q in Used(runs);
      }
      if trail != 0 {
        ghost var _ := TrimTail(q, n, false);
      }
    }

    /** arena_bin_nonfull_run_get's allocation of a small run. */
    method AllocSmall(b: nat, newChunk: Option<nat>) returns (r: Option<Page>)
      requires Valid() && b < |rp| && 0 < rp[b] <= g.MaxLen() && (newChunk.Some? ==> NoRunsIn(runs, newChunk.value)) && Bounded(g, lgDirtyMult, s)
      modifies this`s, this`runs
      ensures Valid() && Bounded(g, lgDirtyMult, s)
      ensures r.None? ==> s == old(s) && runs == old(runs)
      ensures r.None? <==> newChunk.None? && Exhausted(old(s), old(runs), rp[b])
      ensures r.Some? ==> r.value !in Used(old(runs)) && r.value in runs && Used(runs) == Used(old(runs))[r.value := Run(rp[b], Small(b), runs[r.value].dirty)]
      ensures Turned(old(runs), runs, {}, NewPages(g, newChunk))
    {
      r := RunAlloc(rp[b], Small(b), newChunk);
      BoundedKept(g, lgDirtyMult, old(s), s);
    }

    /** From any page of a small run its map entry leads back to the run's first page. */
    lemma SmallPageFindsRun(p: Page, i: nat)
      requires Valid() && p in runs && runs[p].kind.Small? && p.i <= i < p.i + runs[p].len
      ensures Page(p.c, i) in s.bits && s.bits[Page(p.c, i)].SmallBits? && i - s.bits[Page(p.c, i)].runind == p.i
    {
      assert ShowsAt(s.bits, runs, p);
      assert SmallAt(s.bits, Page(p.c, i), i - p.i, runs[p].kind.bin);
    }

    /**
     * arena_dalloc_bin_run under the arena lock, up to the purging: if the run was clean, the
     * pages from `keep` on go back as clean pages; the others go back dirty.
     */
    method ReleaseBinRun(p: Page, keep: nat)
      requires Valid() && p in Used(runs) && runs[p].kind.Small? && keep > 0
      modifies this`s, this`runs
      ensures Valid() && Used(runs) == Used(old(runs)) - {p} && s.nactive == old(s).nactive - old(runs)[p].len
      ensures Trimmed(old(runs), runs, p, keep, {})
    {
      var n := RunLength(p);
      if !s.bits[p].dirty && keep < n {
        ReleaseTail(p, n, keep);
      } else {
        var _ := RunRelease(p, true);
        assert PagesOf(Page(p.c, p.i + n), 0) == {};
      }
    }

    /** arena_run_trim_tail on the clean pages, and then arena_run_dalloc on the others. */
    method ReleaseTail(p: Page, n: nat, keep: nat)
      requires Valid() && p in Used(runs) && runs[p].kind.Small? && !runs[p].dirty && runs[p].len == n && 0 < keep < n
      modifies this`s, this`runs
      ensures Valid() && Used(runs) == Used(old(runs)) - {p} && s.nactive == old(s).nactive - n
      ensures Turned(old(runs), runs, PagesOf(p, keep), PagesOf(Page(p.c, p.i + keep), n - keep))
    {
      ghost var cleaned := PagesOf(Page(p.c, p.i + keep), n - keep);
      TrimClean(p, n, keep);
      ghost var runs1 := runs;
      var _ := RunRelease(p, true);
      TurnedOn(old(runs), runs1, runs, {}, cleaned, PagesOf(p, keep), {});
      assert {} + PagesOf(p, keep) == PagesOf(p, keep) && cleaned + {} == cleaned;
    }

    /** The run becomes a large one and its tail is given back clean. */
    method TrimClean(p: Page, n: nat, keep: nat)
      requires Valid() && p in Used(runs) && runs[p].kind.Small? && !runs[p].dirty && runs[p].len == n && 0 < keep < n
      modifies this`s, this`runs
      ensures Valid() && Used(runs) == Used(old(runs))[p := Run(keep, Large, false)] && s.nactive == old(s).nactive - (n - keep)
      ensures Turned(old(runs), runs, {}, PagesOf(Page(p.c, p.i + keep), n - keep))
    {
      ghost var w := PagesOf(Page(p.c, p.i + keep), n - keep);
      ToLarge(p, n);
      ghost var runs1 := runs;
      var _ := CutTail(p, keep, false);
      TurnedOn(old(runs), runs1, runs, {}, {}, {}, w);
      assert {} + w == w;
    }

    /**
     * arena_dalloc_bin_run: the pages that are kept back are dirty now, unless they have been
     * purged or their chunk has been given back.
     */
    method DallocBinRun(p: Page, keep: nat) returns (ghost purged: set<Page>)
      requires Valid() && p in Used(runs) && runs[p].kind.Small? && keep > 0 && npurgatory == 0
      modifies this`s, this`runs, this`npurgatory
      ensures Valid() && Used(runs) == Used(old(runs)) - {p} && npurgatory == 0 && Bounded(g, lgDirtyMult, s)
      ensures Trimmed(old(runs), runs, p, keep, purged)
      ensures forall a :: a in PagesOf(p, Kept(old(runs)[p], keep)) ==> FreeAs(runs, true, a) || a in purged || !Mapped(runs, a)
    {
      ReleaseBinRun(p, keep);
      ghost var runs1 := runs;
      purged := MaybePurge();
      TrimThenPurge(old(runs), runs1, runs, p, keep, purged);
      forall a | a in PagesOf(p, Kept(old(runs)[p], keep)) ensures FreeAs(runs, true, a) || a in purged || !Mapped(runs, a) {
        KeptPage(g, old(runs), runs, p, keep, purged, a);
      }
    }

    /** A clean small run is marked as a large one, to be trimmed. */
    method ToLarge(p: Page, n: nat)
      requires Valid() && p in runs && runs[p].kind.Small? && !runs[p].dirty && runs[p].len == n > 1
      modifies this`s, this`runs
      ensures Turned(old(runs), runs, {}, {})
      ensures Valid() && s == old(s).(bits := s.bits) && runs == Relabel(old(runs), p, Large, false)
      ensures Used(runs) == Used(old(runs))[p := Run(n, Large, false)]
    {
      GrownShows(s.bits, p, n, false);
      SmallToLarge(g, rp, s, runs, p, s.bits[p := LargeBits(n, false)][LastOf(p, n) := LargeBits(0, false)]);
      UsedRelabel(runs, p, Large, false);
      s := s.(bits := s.bits[p := LargeBits(n, false)]);
      s := s.(bits := s.bits[LastOf(p, n) := LargeBits(0, false)]);
      RelabelTurns(runs, p, Large, false);
      runs := Relabel(runs, p, Large, false);
    }
  }
}
