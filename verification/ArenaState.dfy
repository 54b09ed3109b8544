/**
 * The state of an arena and what every operation on runs keeps: the page map describes a
 * tiling, the two trees of available runs hold exactly the free runs outside the spare
 * chunk, and all counters agree with a recount.
 */
module ArenaState {
  import opened Basics
  import opened PageRuns
  import opened PageMap

  datatype State = State(
    bits: Bits,
    clean: set<Page>,
    dirty: set<Page>,
    spare: Option<nat>,
    nactive: nat,
    ndirty: nat,
    chunkDirty: map<nat, nat>,
    chunksDirty: seq<nat>)

  function Tree(s: State, d: bool): set<Page> {
    if d then s.dirty else s.clean
  }

  function WithTree(s: State, d: bool, t: set<Page>): State {
    if d then s.(dirty := t) else s.(clean := t)
  }

  // --------------------------------------------------------------------------
  // The invariant
  // --------------------------------------------------------------------------

  ghost predicate InTree(runs: Runs, spare: Option<nat>, d: bool, p: Page) {
    p in runs && runs[p].kind.Free? && runs[p].dirty == d && spare != Some(p.c)
  }

  /** The trees hold the available runs, except perhaps one that is being changed. */
  ghost predicate TreesOk(s: State, runs: Runs, except: Option<Page>) {
    && (forall p :: p in s.clean <==> InTree(runs, s.spare, false, p) && except != Some(p))
    && (forall p :: p in s.dirty <==> InTree(runs, s.spare, true, p) && except != Some(p))
  }

  /** The spare chunk is one free run. */
  ghost predicate SpareOk(g: Geometry, s: State, runs: Runs) {
    s.spare.Some? ==> WholeFree(g, runs, s.spare.value)
  }

  ghost predicate WholeFree(g: Geometry, runs: Runs, c: nat) {
    && Page(c, g.bias) in runs
    && runs[Page(c, g.bias)].len == g.MaxLen() && runs[Page(c, g.bias)].kind.Free?
  }

  ghost predicate ChunkCount(s: State, runs: Runs, c: nat)
    requires c in s.chunkDirty
  {
    s.chunkDirty[c] == Sum(DirtyIn(c), runs)
  }

  ghost predicate Counts(g: Geometry, s: State, runs: Runs) {
    && s.nactive == Sum(Active, runs) && s.ndirty == Sum(Dirty, runs)
    && (forall c :: c in s.chunkDirty <==> Page(c, g.bias) in runs)
    && (forall c {:trigger ChunkCount(s, runs, c)} :: c in s.chunkDirty ==> ChunkCount(s, runs, c))
  }

  /** The list holds every chunk with dirty pages, except perhaps one, and each at most once. */
  ghost predicate ListOk(s: State, except: Option<nat>) {
    && Distinct(s.chunksDirty)
    && (forall c :: c in s.chunksDirty ==> c in s.chunkDirty)
    && (forall c :: c in s.chunkDirty && s.chunkDirty[c] > 0 ==> c in s.chunksDirty || except == Some(c))
  }

  /** Small runs have the length of their bin. */
  ghost predicate SmallLengths(rp: seq<nat>, runs: Runs) {
    forall p :: p in runs && runs[p].kind.Small? ==> runs[p].kind.bin < |rp| && runs[p].len == rp[runs[p].kind.bin]
  }

  ghost predicate CoalescedExcept(runs: Runs, e: Page) {
    forall p {:trigger NotBothFree(runs, p)} :: p in runs && p != e && After(runs, p) != e ==> NotBothFree(runs, p)
  }

  ghost predicate Inv(g: Geometry, rp: seq<nat>, s: State, runs: Runs) {
    && g.Ok() && Tiled(g, runs) && Coalesced(runs) && AllShow(s.bits, runs) && SmallLengths(rp, runs)
    && TreesOk(s, runs, None) && SpareOk(g, s, runs) && Counts(g, s, runs) && ListOk(s, None)
  }

  /** The invariant while the free run at `e` is being coalesced. */
  ghost predicate Mid(g: Geometry, rp: seq<nat>, s: State, runs: Runs, e: Page) {
    && g.Ok() && Tiled(g, runs) && CoalescedExcept(runs, e) && AllShow(s.bits, runs) && SmallLengths(rp, runs)
    && TreesOk(s, runs, Some(e)) && SpareOk(g, s, runs) && Counts(g, s, runs)
    && e in runs && runs[e].kind.Free? && s.spare != Some(e.c)
    && ListOk(s, if runs[e].dirty then Some(e.c) else None)
  }

  // --------------------------------------------------------------------------
  // Reading the page map
  // --------------------------------------------------------------------------

  /** The entry of a run's first page tells its kind, and for its size. */
  lemma FirstEntry(bits: Bits, runs: Runs, p: Page)
    requires AllShow(bits, runs) && p in runs
    ensures p in bits && runs[p].len > 0 && bits[p].dirty == runs[p].dirty
    ensures bits[p].Unallocated? <==> runs[p].kind.Free?
    ensures bits[p].LargeBits? <==> runs[p].kind.Large?
    ensures bits[p].Unallocated? || bits[p].LargeBits? ==> bits[p].size == runs[p].len
    ensures bits[p].SmallBits? ==> runs[p].kind == Small(bits[p].bin)
  {
    assert ShowsAt(bits, runs, p);
    if runs[p].kind.Small? {
      assert SmallAt(bits, Page(p.c, p.i), 0, runs[p].kind.bin);
    }
  }

  /** The entry before a run is the last of the run before it. */
  lemma EntryBefore(g: Geometry, bits: Bits, runs: Runs, p: Page) returns (q: Page)
    requires Tiled(g, runs) && AllShow(bits, runs) && p in runs && p.i > g.bias
    ensures q in runs && After(runs, q) == p && q.i + runs[q].len == p.i && runs[q].len > 0 && q.c == p.c
    ensures Page(p.c, p.i - 1) in bits
    ensures bits[Page(p.c, p.i - 1)].Unallocated? <==> runs[q].kind.Free?
    ensures runs[q].kind.Free? ==> bits[Page(p.c, p.i - 1)] == Unallocated(runs[q].len, runs[q].dirty)
  {
    assert HasPrev(g, runs, p);
    q :| EndsAt(runs, q, p);
    assert ShowsAt(bits, runs, q);
  }

  // --------------------------------------------------------------------------
  // Counting
  // --------------------------------------------------------------------------

  lemma RunCounts(w: Count, runs: Runs, p: Page)
    requires p in runs
    ensures Weight(w, p, runs[p]) <= Sum(w, runs)
  {
    SumWithout(w, runs, p);
  }

  /** A whole free chunk has all its dirty pages in its one run. */
  lemma WholeCounts(g: Geometry, runs: Runs, c: nat)
    requires g.Ok() && Tiled(g, runs) && WholeFree(g, runs, c)
    ensures Sum(DirtyIn(c), runs) == Weight(Dirty, Page(c, g.bias), runs[Page(c, g.bias)])
  {
    var p := Page(c, g.bias);
    SumWithout(DirtyIn(c), runs, p);
    WithoutChunkKeeps(g, runs, c);
    SumElsewhere(runs - {p}, c);
  }
}
