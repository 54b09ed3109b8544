/** What splitting, freeing, dividing and growing runs keeps. */
module ArenaOps {
  import opened Basics
  import opened PageRuns
  import opened PageMap
  import opened PageStates
  import opened ArenaState

  ghost predicate SmallKind(rp: seq<nat>, kind: Kind, n: nat) {
    kind.Small? ==> kind.bin < |rp| && n == rp[kind.bin]
  }

  // --------------------------------------------------------------------------
  // The runs in use, as their users know them
  // --------------------------------------------------------------------------

  ghost function Used(runs: Runs): Runs {
    map p | p in runs && !runs[p].kind.Free? :: runs[p]
  }

  lemma UsedRelabel(runs: Runs, p: Page, kind: Kind, dirty: bool)
    requires p in runs
    ensures kind.Free? ==> Used(Relabel(runs, p, kind, dirty)) == Used(runs) - {p}
    ensures !kind.Free? ==> Used(Relabel(runs, p, kind, dirty)) == Used(runs)[p := Run(runs[p].len, kind, dirty)]
  {
  }

  lemma UsedSplit(runs: Runs, p: Page, n: nat, kind: Kind)
    requires p in runs && 0 < n <= runs[p].len && !kind.Free? && (n < runs[p].len ==> Page(p.c, p.i + n) !in runs)
    ensures Used(Split(runs, p, n, kind)) == Used(runs)[p := Run(n, kind, runs[p].dirty)]
  {
  }

  lemma UsedJoin(runs: Runs, p: Page, d: bool)
    requires p in runs && After(runs, p) in runs && runs[p].kind.Free? && runs[After(runs, p)].kind.Free?
    ensures Used(Merge(runs, p, Free, d)) == Used(runs)
  {
  }

  lemma UsedMerge(runs: Runs, p: Page, d: bool)
    requires p in runs && After(runs, p) in runs && !runs[p].kind.Free? && !runs[After(runs, p)].kind.Free?
    ensures Used(Merge(runs, p, Large, d)) == (Used(runs) - {After(runs, p)})[p := Run(runs[p].len + runs[After(runs, p)].len, Large, d)]
  {
  }

  lemma UsedDivide(runs: Runs, p: Page, n: nat, d: bool)
    requires p in runs && 0 < n < runs[p].len
    ensures Used(Divide(runs, p, n, Large, Large, d)) == Used(runs)[p := Run(n, Large, d)][Page(p.c, p.i + n) := Run(runs[p].len - n, Large, d)]
  {
  }

  // --------------------------------------------------------------------------
  // Splitting a free run
  // --------------------------------------------------------------------------

  /** The first `n` pages are allocated and the others stay free. */
  function Split(runs: Runs, p: Page, n: nat, kind: Kind): Runs
    requires p in runs && n <= runs[p].len
  {
    if n < runs[p].len then Divide(runs, p, n, kind, Free, runs[p].dirty) else Relabel(runs, p, kind, runs[p].dirty)
  }

  function Rest(runs: Runs, p: Page, n: nat): set<Page>
    requires p in runs
  {
    if n < runs[p].len then {Page(p.c, p.i + n)} else {}
  }

  lemma SplitTiled(g: Geometry, rp: seq<nat>, runs: Runs, p: Page, n: nat, kind: Kind)
    requires Tiled(g, runs) && SmallLengths(rp, runs) && p in runs && 0 < n <= runs[p].len && SmallKind(rp, kind, n)
    ensures Tiled(g, Split(runs, p, n, kind)) && SmallLengths(rp, Split(runs, p, n, kind))
    ensures n < runs[p].len ==> Page(p.c, p.i + n) !in runs
  {
    if n < runs[p].len {
      DivideKeeps(g, runs, p, n, kind, Free, runs[p].dirty);
    } else {
      RelabelKeeps(g, runs, p, kind, runs[p].dirty);
    }
  }

  lemma SplitTurns(runs: Runs, p: Page, n: nat, kind: Kind)
    requires p in runs && runs[p].kind.Free? && 0 < n <= runs[p].len && !kind.Free?
    ensures Turned(runs, Split(runs, p, n, kind), {}, {})
  {
    if n < runs[p].len {
      RestTurns(runs, p, n, kind);
    } else {
      RelabelTurns(runs, p, kind, runs[p].dirty);
    }
  }

  lemma SplitCoalesced(g: Geometry, runs: Runs, p: Page, n: nat, kind: Kind)
    requires Tiled(g, runs) && Coalesced(runs) && p in runs && runs[p].kind.Free? && 0 < n <= runs[p].len && !kind.Free?
    ensures Coalesced(Split(runs, p, n, kind))
  {
    var runs', m := Split(runs, p, n, kind), Page(p.c, p.i + n);
    forall q | q in runs' ensures NotBothFree(runs', q) {
      assert NotBothFree(runs, p);
      if q != p && (n == runs[p].len || q != m) {
        assert NotBothFree(runs, q) && RunsApart(runs, p, q) && RunsApart(runs, q, p) && RunOk(g, runs, q);
      }
    }
  }

  lemma SplitTrees(s: State, s': State, runs: Runs, p: Page, n: nat, kind: Kind)
    requires TreesOk(s, runs, None) && p in runs && runs[p].kind.Free? && 0 < n <= runs[p].len && !kind.Free? && s.spare != Some(p.c)
    requires n < runs[p].len ==> Page(p.c, p.i + n) !in runs
    requires s'.spare == s.spare && Tree(s', !runs[p].dirty) == Tree(s, !runs[p].dirty)
    requires Tree(s', runs[p].dirty) == Tree(s, runs[p].dirty) - {p} + Rest(runs, p, n)
    ensures TreesOk(s', Split(runs, p, n, kind), None)
  {
  }

  lemma SplitSum(g: Geometry, w: Count, runs: Runs, p: Page, n: nat, kind: Kind)
    requires p in runs && runs[p].kind.Free? && 0 < n <= runs[p].len && !kind.Free?
    requires n < runs[p].len ==> Page(p.c, p.i + n) !in runs
    ensures Sum(w, Split(runs, p, n, kind)) ==
      Sum(w, runs) + (if w == Active then n else 0) - (if runs[p].dirty && (w == Dirty || w == DirtyIn(p.c)) then n else 0)
  {
    if n < runs[p].len {
      SumDivide(w, runs, p, n, kind, Free, runs[p].dirty);
    } else {
      SumRelabel(w, runs, p, kind, runs[p].dirty);
    }
  }

  lemma SplitCounts(g: Geometry, s: State, s': State, runs: Runs, p: Page, n: nat, kind: Kind)
    requires Counts(g, s, runs) && p in runs && runs[p].kind.Free? && 0 < n <= runs[p].len && !kind.Free? && p.c in s.chunkDirty
    requires n < runs[p].len ==> Page(p.c, p.i + n) !in runs
    requires s'.nactive == s.nactive + n && s'.ndirty == s.ndirty - (if runs[p].dirty then n else 0)
    requires runs[p].dirty ==> n <= s.chunkDirty[p.c]
    requires s'.chunkDirty == if runs[p].dirty then s.chunkDirty[p.c := s.chunkDirty[p.c] - n] else s.chunkDirty
    requires Page(p.c, g.bias) in runs && (n < runs[p].len ==> g.bias <= p.i)
    ensures Counts(g, s', Split(runs, p, n, kind))
  {
    SplitSum(g, Active, runs, p, n, kind);
    SplitSum(g, Dirty, runs, p, n, kind);
    var runs' := Split(runs, p, n, kind);
    forall c | c in s'.chunkDirty ensures ChunkCount(s', runs', c) {
      assert ChunkCount(s, runs, c);
      SplitSum(g, DirtyIn(c), runs, p, n, kind);
    }
  }

  lemma SplitShows(g: Geometry, bits: Bits, bits': Bits, runs: Runs, p: Page, n: nat, kind: Kind)
    requires Tiled(g, runs) && AllShow(bits, runs) && p in runs && 0 < n <= runs[p].len && Within(bits, bits', p, runs[p].len)
    requires Shows(bits', p, Run(n, kind, runs[p].dirty))
    requires n < runs[p].len ==> Shows(bits', Page(p.c, p.i + n), Run(runs[p].len - n, Free, runs[p].dirty))
    ensures AllShow(bits', Split(runs, p, n, kind))
  {
    if n < runs[p].len {
      DivideShows(g, bits, bits', runs, p, n, kind, Free, runs[p].dirty);
    } else {
      RelabelShows(g, bits, bits', runs, p, kind, runs[p].dirty);
    }
  }

  /** The state after a split, apart from the page map. */
  function SplitState(s: State, runs: Runs, p: Page, n: nat, bits: Bits): State
    requires p in runs && p.c in s.chunkDirty && (runs[p].dirty ==> n <= s.ndirty && n <= s.chunkDirty[p.c])
  {
    var d := runs[p].dirty;
    State(bits,
      if d then s.clean else s.clean - {p} + Rest(runs, p, n),
      if d then s.dirty - {p} + Rest(runs, p, n) else s.dirty,
      s.spare,
      s.nactive + n,
      if d then s.ndirty - n else s.ndirty,
      if d then s.chunkDirty[p.c := s.chunkDirty[p.c] - n] else s.chunkDirty,
      s.chunksDirty)
  }

  ghost predicate CanSplit(g: Geometry, rp: seq<nat>, s: State, runs: Runs, p: Page, n: nat, kind: Kind) {
    && Inv(g, rp, s, runs) && p in runs && runs[p].kind.Free? && 0 < n <= runs[p].len && s.spare != Some(p.c)
    && !kind.Free? && SmallKind(rp, kind, n)
  }

  lemma SplitDefined(g: Geometry, rp: seq<nat>, s: State, runs: Runs, p: Page, n: nat, kind: Kind)
    requires CanSplit(g, rp, s, runs, p, n, kind)
    ensures p.c in s.chunkDirty && (runs[p].dirty ==> n <= s.ndirty && n <= s.chunkDirty[p.c])
    ensures p in Tree(s, runs[p].dirty) && p in s.bits && s.bits[p] == Unallocated(runs[p].len, runs[p].dirty)
  {
    assert RunOk(g, runs, p);
    assert ChunkCount(s, runs, p.c);
    RunCounts(Dirty, runs, p);
    RunCounts(DirtyIn(p.c), runs, p);
    FirstEntry(s.bits, runs, p);
  }

  lemma SplitKeeps(g: Geometry, rp: seq<nat>, s: State, runs: Runs, p: Page, n: nat, kind: Kind, bits: Bits)
    requires CanSplit(g, rp, s, runs, p, n, kind) && Within(s.bits, bits, p, runs[p].len)
    requires p.c in s.chunkDirty && (runs[p].dirty ==> n <= s.ndirty && n <= s.chunkDirty[p.c])
    requires Shows(bits, p, Run(n, kind, runs[p].dirty))
    requires n < runs[p].len ==> Shows(bits, Page(p.c, p.i + n), Run(runs[p].len - n, Free, runs[p].dirty))
    ensures Inv(g, rp, SplitState(s, runs, p, n, bits), Split(runs, p, n, kind))
  {
    var s' := SplitState(s, runs, p, n, bits);
    assert RunOk(g, runs, p);
    SplitTiled(g, rp, runs, p, n, kind);
    SplitCoalesced(g, runs, p, n, kind);
    SplitTrees(s, s', runs, p, n, kind);
    SplitCounts(g, s, s', runs, p, n, kind);
    SplitShows(g, s.bits, bits, runs, p, n, kind);
  }

  // --------------------------------------------------------------------------
  // Freeing a run: mark it, join it with its neighbours, make it available
  // --------------------------------------------------------------------------

  /** Runs in use are not in the spare chunk. */
  lemma InUseNotSpare(g: Geometry, s: State, runs: Runs, p: Page)
    requires g.Ok() && Tiled(g, runs) && SpareOk(g, s, runs) && p in runs && !runs[p].kind.Free?
    ensures s.spare != Some(p.c)
  {
    if s.spare == Some(p.c) {
      WholeChunk(g, runs, p.c, p);
    }
  }

  function MarkState(s: State, runs: Runs, p: Page, d: bool, bits: Bits): State
    requires p in runs && p.c in s.chunkDirty && runs[p].len <= s.nactive
  {
    var n := runs[p].len;
    s.(bits := bits, nactive := s.nactive - n,
       ndirty := if d then s.ndirty + n else s.ndirty,
       chunkDirty := if d then s.chunkDirty[p.c := s.chunkDirty[p.c] + n] else s.chunkDirty)
  }

  lemma MarkDefined(g: Geometry, rp: seq<nat>, s: State, runs: Runs, p: Page)
    requires Inv(g, rp, s, runs) && p in runs && !runs[p].kind.Free?
    ensures p.c in s.chunkDirty && runs[p].len <= s.nactive
  {
    assert RunOk(g, runs, p);
    RunCounts(Active, runs, p);
  }

  lemma MarkCounts(g: Geometry, s: State, runs: Runs, p: Page, d: bool, bits: Bits)
    requires Counts(g, s, runs) && p in runs && !runs[p].kind.Free? && p.c in s.chunkDirty && runs[p].len <= s.nactive
    ensures Counts(g, MarkState(s, runs, p, d, bits), Relabel(runs, p, Free, d))
  {
    var s', runs' := MarkState(s, runs, p, d, bits), Relabel(runs, p, Free, d);
    SumRelabel(Active, runs, p, Free, d);
    SumRelabel(Dirty, runs, p, Free, d);
    forall c | c in s'.chunkDirty ensures ChunkCount(s', runs', c) {
      assert ChunkCount(s, runs, c);
      SumRelabel(DirtyIn(c), runs, p, Free, d);
    }
  }

  lemma MarkCoalesced(runs: Runs, p: Page, d: bool)
    requires Coalesced(runs) && p in runs
    ensures CoalescedExcept(Relabel(runs, p, Free, d), p)
  {
    var runs' := Relabel(runs, p, Free, d);
    forall q | q in runs' && q != p && After(runs', q) != p ensures NotBothFree(runs', q) {
      assert NotBothFree(runs, q);
    }
  }

  lemma MarkKeeps(g: Geometry, rp: seq<nat>, s: State, runs: Runs, p: Page, d: bool, bits: Bits)
    requires Inv(g, rp, s, runs) && p in runs && !runs[p].kind.Free? && p.c in s.chunkDirty && runs[p].len <= s.nactive
    requires Within(s.bits, bits, p, runs[p].len) && Shows(bits, p, Run(runs[p].len, Free, d))
    ensures Mid(g, rp, MarkState(s, runs, p, d, bits), Relabel(runs, p, Free, d), p)
  {
    InUseNotSpare(g, s, runs, p);
    RelabelKeeps(g, runs, p, Free, d);
    RelabelShows(g, s.bits, bits, runs, p, Free, d);
    MarkCounts(g, s, runs, p, d, bits);
    MarkCoalesced(runs, p, d);
  }

  /** Two free runs become one at `p`; the joined run is `e`, which is `p` or the one after it. */
  function JoinState(s: State, d: bool, gone: Page, bits: Bits): State {
    State(bits, if d then s.clean else s.clean - {gone}, if d then s.dirty - {gone} else s.dirty,
      s.spare, s.nactive, s.ndirty, s.chunkDirty, s.chunksDirty)
  }

  lemma JoinCounts(g: Geometry, s: State, s': State, runs: Runs, p: Page, d: bool)
    requires Counts(g, s, runs) && Tiled(g, runs) && p in runs && After(runs, p) in runs
    requires runs[p].kind.Free? && runs[After(runs, p)].kind.Free? && runs[p].dirty == d == runs[After(runs, p)].dirty
    requires s'.nactive == s.nactive && s'.ndirty == s.ndirty && s'.chunkDirty == s.chunkDirty
    ensures Counts(g, s', Merge(runs, p, Free, d))
  {
    var runs' := Merge(runs, p, Free, d);
    assert RunOk(g, runs, p);
    SumMerge(Active, runs, p, Free, d);
    SumMerge(Dirty, runs, p, Free, d);
    forall c | c in s'.chunkDirty ensures ChunkCount(s', runs', c) {
      assert ChunkCount(s, runs, c);
      SumMerge(DirtyIn(c), runs, p, Free, d);
    }
  }

  lemma JoinCoalesced(g: Geometry, runs: Runs, p: Page, d: bool, e: Page)
    requires Tiled(g, runs) && CoalescedExcept(runs, e) && p in runs && After(runs, p) in runs && (e == p || e == After(runs, p))
    ensures CoalescedExcept(Merge(runs, p, Free, d), p)
  {
    var runs', m := Merge(runs, p, Free, d), After(runs, p);
    forall q | q in runs' && q != p && After(runs', q) != p ensures NotBothFree(runs', q) {
      assert RunOk(g, runs, p) && RunOk(g, runs, m) && RunsApart(runs, q, p) && RunsApart(runs, p, q);
      assert NotBothFree(runs, q);
    }
  }

  lemma JoinTrees(s: State, runs: Runs, p: Page, d: bool, e: Page, bits: Bits)
    requires p in runs && After(runs, p) in runs && (e == p || e == After(runs, p)) && After(runs, p) != p
    requires runs[p].kind.Free? && runs[After(runs, p)].kind.Free? && runs[p].dirty == d == runs[After(runs, p)].dirty
    requires TreesOk(s, runs, Some(e))
    ensures TreesOk(JoinState(s, d, if e == p then After(runs, p) else p, bits), Merge(runs, p, Free, d), Some(p))
  {
  }

  lemma JoinKeeps(g: Geometry, rp: seq<nat>, s: State, runs: Runs, p: Page, d: bool, e: Page, bits: Bits)
    requires Mid(g, rp, s, runs, e) && p in runs && After(runs, p) in runs && (e == p || e == After(runs, p))
    requires runs[p].kind.Free? && runs[After(runs, p)].kind.Free? && runs[p].dirty == d == runs[After(runs, p)].dirty
    requires Within(s.bits, bits, p, runs[p].len + runs[After(runs, p)].len)
    requires Shows(bits, p, Run(runs[p].len + runs[After(runs, p)].len, Free, d))
    ensures Mid(g, rp, JoinState(s, d, if e == p then After(runs, p) else p, bits), Merge(runs, p, Free, d), p)
  {
    var s' := JoinState(s, d, if e == p then After(runs, p) else p, bits);
    assert RunOk(g, runs, p) && RunOk(g, runs, After(runs, p));
    MergeKeeps(g, runs, p, Free, d);
    MergeShows(g, s.bits, bits, runs, p, Free, d);
    JoinCounts(g, s, s', runs, p, d);
    JoinCoalesced(g, runs, p, d, e);
    JoinTrees(s, runs, p, d, e, bits);
  }

  /** The run after `e` cannot be joined with it. */
  ghost predicate NextDiffers(runs: Runs, e: Page)
    requires e in runs
  {
    NotBothFree(runs, e)
  }

  /** No run before `e` can be joined with it. */
  ghost predicate PrevDiffers(runs: Runs, e: Page) {
    forall q {:trigger EndsAt(runs, q, e)} :: EndsAt(runs, q, e) ==> NotBothFree(runs, q)
  }

  /** The coalesced run becomes available, and its chunk is listed if it is dirty. */
  function CloseState(s: State, d: bool, e: Page): State {
    State(s.bits, if d then s.clean else s.clean + {e}, if d then s.dirty + {e} else s.dirty,
      s.spare, s.nactive, s.ndirty, s.chunkDirty,
      if d && e.c !in s.chunksDirty then s.chunksDirty + [e.c] else s.chunksDirty)
  }

  lemma CloseKeeps(g: Geometry, rp: seq<nat>, s: State, runs: Runs, e: Page)
    requires Mid(g, rp, s, runs, e) && NextDiffers(runs, e) && PrevDiffers(runs, e)
    ensures Inv(g, rp, CloseState(s, runs[e].dirty, e), runs)
  {
    var s' := CloseState(s, runs[e].dirty, e);
    assert RunOk(g, runs, e);
    forall q | q in runs ensures NotBothFree(runs, q) {
      if q != e && After(runs, q) == e {
        assert EndsAt(runs, q, e);
      }
    }
    forall c | c in s'.chunkDirty ensures ChunkCount(s', runs, c) {
      assert ChunkCount(s, runs, c);
    }
  }

  // --------------------------------------------------------------------------
  // Runs in use: divided, merged, relabelled
  // --------------------------------------------------------------------------

  /** A change among runs in use that keeps the number of their pages. */
  lemma InUseChange(g: Geometry, rp: seq<nat>, s: State, s': State, runs: Runs, runs': Runs)
    requires Inv(g, rp, s, runs) && s' == s.(bits := s'.bits)
    requires Tiled(g, runs') && AllShow(s'.bits, runs') && SmallLengths(rp, runs')
    requires forall p :: (p in runs && runs[p].kind.Free?) || (p in runs' && runs'[p].kind.Free?) ==> p in runs && p in runs' && runs'[p] == runs[p]
    requires forall w :: Sum(w, runs') == Sum(w, runs)
    requires forall c :: Page(c, g.bias) in runs <==> Page(c, g.bias) in runs'
    ensures Inv(g, rp, s', runs')
  {
    forall q | q in runs' ensures NotBothFree(runs', q) {
      if q in runs {
        assert NotBothFree(runs, q);
      }
    }
    forall c | c in s'.chunkDirty ensures ChunkCount(s', runs', c) {
      assert ChunkCount(s, runs, c);
    }
  }

  lemma DivideLarge(g: Geometry, rp: seq<nat>, s: State, runs: Runs, p: Page, n: nat, bits: Bits)
    requires Inv(g, rp, s, runs) && p in runs && runs[p].kind.Large? && 0 < n < runs[p].len
    requires Within(s.bits, bits, p, runs[p].len) && Shows(bits, p, Run(n, Large, runs[p].dirty))
    requires Shows(bits, Page(p.c, p.i + n), Run(runs[p].len - n, Large, runs[p].dirty))
    ensures Inv(g, rp, s.(bits := bits), Divide(runs, p, n, Large, Large, runs[p].dirty))
  {
    var d := runs[p].dirty;
    assert RunOk(g, runs, p);
    DivideKeeps(g, runs, p, n, Large, Large, d);
    DivideShows(g, s.bits, bits, runs, p, n, Large, Large, d);
    forall w ensures Sum(w, Divide(runs, p, n, Large, Large, d)) == Sum(w, runs) {
      SumDivide(w, runs, p, n, Large, Large, d);
    }
    InUseChange(g, rp, s, s.(bits := bits), runs, Divide(runs, p, n, Large, Large, d));
  }

  lemma MergeLarge(g: Geometry, rp: seq<nat>, s: State, runs: Runs, p: Page, d: bool, bits: Bits)
    requires Inv(g, rp, s, runs) && p in runs && runs[p].kind.Large? && After(runs, p) in runs && runs[After(runs, p)].kind.Large?
    requires Within(s.bits, bits, p, runs[p].len + runs[After(runs, p)].len)
    requires Shows(bits, p, Run(runs[p].len + runs[After(runs, p)].len, Large, d))
    ensures Inv(g, rp, s.(bits := bits), Merge(runs, p, Large, d))
  {
    assert RunOk(g, runs, p);
    MergeKeeps(g, runs, p, Large, d);
    MergeShows(g, s.bits, bits, runs, p, Large, d);
    forall w ensures Sum(w, Merge(runs, p, Large, d)) == Sum(w, runs) {
      SumMerge(w, runs, p, Large, d);
    }
    InUseChange(g, rp, s, s.(bits := bits), runs, Merge(runs, p, Large, d));
  }

  lemma SmallToLarge(g: Geometry, rp: seq<nat>, s: State, runs: Runs, p: Page, bits: Bits)
    requires Inv(g, rp, s, runs) && p in runs && runs[p].kind.Small?
    requires Within(s.bits, bits, p, runs[p].len) && Shows(bits, p, Run(runs[p].len, Large, runs[p].dirty))
    ensures Inv(g, rp, s.(bits := bits), Relabel(runs, p, Large, runs[p].dirty))
  {
    var d := runs[p].dirty;
    RelabelKeeps(g, runs, p, Large, d);
    RelabelShows(g, s.bits, bits, runs, p, Large, d);
    forall w ensures Sum(w, Relabel(runs, p, Large, d)) == Sum(w, runs) {
      SumRelabel(w, runs, p, Large, d);
    }
    InUseChange(g, rp, s, s.(bits := bits), runs, Relabel(runs, p, Large, d));
  }

  // --------------------------------------------------------------------------
  // Chunks: a new one, the spare, and giving one back
  // --------------------------------------------------------------------------

  function NewChunkState(g: Geometry, s: State, c: nat, bits: Bits): State {
    State(bits, s.clean + {Page(c, g.bias)}, s.dirty, s.spare, s.nactive, s.ndirty, s.chunkDirty[c := 0], s.chunksDirty)
  }

  lemma NewChunkKeeps(g: Geometry, rp: seq<nat>, s: State, runs: Runs, c: nat, bits: Bits)
    requires Inv(g, rp, s, runs) && NoRunsIn(runs, c) && s.spare.None?
    requires Within(s.bits, bits, Page(c, g.bias), g.MaxLen()) && Shows(bits, Page(c, g.bias), Run(g.MaxLen(), Free, false))
    ensures Inv(g, rp, NewChunkState(g, s, c, bits), WithChunk(g, runs, c))
  {
    var p, s', runs' := Page(c, g.bias), NewChunkState(g, s, c, bits), WithChunk(g, runs, c);
    WithChunkKeeps(g, runs, c);
    forall q | q in runs' ensures KnownRun(bits, runs, runs', p, g.MaxLen(), q) {
      if q == p {
        assert ShowsAt(bits, runs', q);
      }
    }
    AllShowAfter(s.bits, bits, runs, runs', p, g.MaxLen());
    forall q | q in runs' ensures NotBothFree(runs', q) {
      if q in runs {
        assert NotBothFree(runs, q);
      }
    }
    NewChunkCounts(g, s, runs, c, bits);
  }

  lemma NewChunkCounts(g: Geometry, s: State, runs: Runs, c: nat, bits: Bits)
    requires g.Ok() && Counts(g, s, runs) && NoRunsIn(runs, c)
    ensures Counts(g, NewChunkState(g, s, c, bits), WithChunk(g, runs, c))
  {
    var p, s', runs' := Page(c, g.bias), NewChunkState(g, s, c, bits), WithChunk(g, runs, c);
    forall w ensures Sum(w, runs') == Sum(w, runs) {
      SumWith(w, runs, p, Run(g.MaxLen(), Free, false));
      assert runs - {p} == runs;
    }
    forall k | k in s'.chunkDirty ensures ChunkCount(s', runs', k) {
      if k == c {
        SumElsewhere(runs, c);
      } else {
        assert ChunkCount(s, runs, k);
      }
    }
  }

  /** The spare chunk is put to use again: its run becomes available. */
  function TakeSpareState(g: Geometry, s: State, d: bool): State
    requires s.spare.Some?
  {
    WithTree(s.(spare := None), d, Tree(s, d) + {Page(s.spare.value, g.bias)})
  }

  lemma TakeSpareKeeps(g: Geometry, rp: seq<nat>, s: State, runs: Runs)
    requires Inv(g, rp, s, runs) && s.spare.Some?
    ensures Inv(g, rp, TakeSpareState(g, s, runs[Page(s.spare.value, g.bias)].dirty), runs)
  {
    var c := s.spare.value;
    var s' := TakeSpareState(g, s, runs[Page(c, g.bias)].dirty);
    forall q | q in runs && q.c == c ensures q == Page(c, g.bias) {
      WholeChunk(g, runs, c, q);
    }
    forall k | k in s'.chunkDirty ensures ChunkCount(s', runs, k) {
      assert ChunkCount(s, runs, k);
    }
  }

  /** A chunk that became one free run is the new spare; there was none. */
  function SpareState(g: Geometry, s: State, c: nat, d: bool): State {
    WithTree(s.(spare := Some(c)), d, Tree(s, d) - {Page(c, g.bias)})
  }

  lemma SpareKeeps(g: Geometry, rp: seq<nat>, s: State, runs: Runs, c: nat)
    requires Inv(g, rp, s, runs) && s.spare.None? && WholeFree(g, runs, c)
    ensures Inv(g, rp, SpareState(g, s, c, runs[Page(c, g.bias)].dirty), runs)
  {
    var s' := SpareState(g, s, c, runs[Page(c, g.bias)].dirty);
    forall q | q in runs && q.c == c ensures q == Page(c, g.bias) {
      WholeChunk(g, runs, c, q);
    }
    forall k | k in s'.chunkDirty ensures ChunkCount(s', runs, k) {
      assert ChunkCount(s, runs, k);
    }
  }

  function RemoveFrom(l: seq<nat>, c: nat): (r: seq<nat>)
    ensures forall k :: k in r <==> k in l && k != c
  {
    if l == [] then [] else if l[0] == c then RemoveFrom(l[1..], c) else [l[0]] + RemoveFrom(l[1..], c)
  }

  lemma {:induction false} RemoveDistinct(l: seq<nat>, c: nat)
    requires Distinct(l)
    ensures Distinct(RemoveFrom(l, c))
  {
    if l != [] {
      assert Distinct(l[1..]);
      RemoveDistinct(l[1..], c);
      assert l[0] !in l[1..];
    }
  }

  /** The spare chunk is given back with its dirty pages. */
  function DiscardState(s: State): State
    requires s.spare.Some? && s.spare.value in s.chunkDirty
    requires s.spare.value in s.chunksDirty ==> s.chunkDirty[s.spare.value] <= s.ndirty
  {
    var c := s.spare.value;
    s.(spare := None, chunkDirty := s.chunkDirty - {c}, chunksDirty := RemoveFrom(s.chunksDirty, c),
       ndirty := if c in s.chunksDirty then s.ndirty - s.chunkDirty[c] else s.ndirty)
  }

  lemma DiscardDefined(g: Geometry, rp: seq<nat>, s: State, runs: Runs)
    requires Inv(g, rp, s, runs) && s.spare.Some?
    ensures s.spare.value in s.chunkDirty && s.chunkDirty[s.spare.value] <= s.ndirty
    ensures s.spare.value !in s.chunksDirty ==> s.chunkDirty[s.spare.value] == 0
  {
    assert ChunkCount(s, runs, s.spare.value);
    SumIn(runs, s.spare.value);
  }

  lemma DiscardKeeps(g: Geometry, rp: seq<nat>, s: State, runs: Runs)
    requires Inv(g, rp, s, runs) && s.spare.Some? && s.spare.value in s.chunkDirty && s.chunkDirty[s.spare.value] <= s.ndirty
    requires s.spare.value !in s.chunksDirty ==> s.chunkDirty[s.spare.value] == 0
    ensures Inv(g, rp, DiscardState(s), runs - {Page(s.spare.value, g.bias)})
  {
    var c := s.spare.value;
    var p, s', runs' := Page(c, g.bias), DiscardState(s), runs - {Page(c, g.bias)};
    WithoutChunkKeeps(g, runs, c);
    forall q | q in runs' ensures ShowsAt(s'.bits, runs', q) && NotBothFree(runs', q) {
      assert ShowsAt(s.bits, runs, q) && NotBothFree(runs, q);
    }
    RemoveDistinct(s.chunksDirty, c);
    DiscardCounts(g, rp, s, runs);
  }

  lemma DiscardCounts(g: Geometry, rp: seq<nat>, s: State, runs: Runs)
    requires Inv(g, rp, s, runs) && s.spare.Some? && s.spare.value in s.chunkDirty && s.chunkDirty[s.spare.value] <= s.ndirty
    requires s.spare.value !in s.chunksDirty ==> s.chunkDirty[s.spare.value] == 0
    ensures Counts(g, DiscardState(s), runs - {Page(s.spare.value, g.bias)})
  {
    var c := s.spare.value;
    var p, s', runs' := Page(c, g.bias), DiscardState(s), runs - {Page(c, g.bias)};
    assert ChunkCount(s, runs, c);
    WholeCounts(g, runs, c);
    SumWithout(Active, runs, p);
    SumWithout(Dirty, runs, p);
    forall k | k in s'.chunkDirty ensures ChunkCount(s', runs', k) {
      assert ChunkCount(s, runs, k);
      SumWithout(DirtyIn(k), runs, p);
    }
  }

  // --------------------------------------------------------------------------
  // Purging a chunk: its dirty runs are put into use as clean ones for a while
  // --------------------------------------------------------------------------

  /** The counters while the dirty runs of chunk `c` are taken one after the other. */
  ghost predicate PurgeCounts(g: Geometry, s: State, runs: Runs, c: nat) {
    && s.nactive == Sum(Active, runs) && c in s.chunkDirty
    && s.ndirty + Sum(DirtyIn(c), runs) == Sum(Dirty, runs) + s.chunkDirty[c]
    && (forall k :: k in s.chunkDirty <==> Page(k, g.bias) in runs)
    && (forall k {:trigger ChunkCount(s, runs, k)} :: k in s.chunkDirty && k != c ==> ChunkCount(s, runs, k))
  }

  ghost predicate Purging(g: Geometry, rp: seq<nat>, s: State, runs: Runs, c: nat) {
    && g.Ok() && Tiled(g, runs) && Coalesced(runs) && AllShow(s.bits, runs) && SmallLengths(rp, runs)
    && TreesOk(s, runs, None) && SpareOk(g, s, runs) && s.spare != Some(c)
    && PurgeCounts(g, s, runs, c) && ListOk(s, None)
  }

  function StashState(s: State, p: Page, n: nat, bits: Bits): State {
    s.(bits := bits, dirty := s.dirty - {p}, nactive := s.nactive + n)
  }

  lemma StashCounts(g: Geometry, s: State, runs: Runs, p: Page, bits: Bits)
    requires PurgeCounts(g, s, runs, p.c) && p in runs && runs[p].kind.Free? && runs[p].dirty
    ensures PurgeCounts(g, StashState(s, p, runs[p].len, bits), Relabel(runs, p, Large, false), p.c)
  {
    var s', runs' := StashState(s, p, runs[p].len, bits), Relabel(runs, p, Large, false);
    SumRelabel(Active, runs, p, Large, false);
    SumRelabel(Dirty, runs, p, Large, false);
    SumRelabel(DirtyIn(p.c), runs, p, Large, false);
    forall k | k in s'.chunkDirty && k != p.c ensures ChunkCount(s', runs', k) {
      assert ChunkCount(s, runs, k);
      SumRelabel(DirtyIn(k), runs, p, Large, false);
    }
  }

  lemma StashKeeps(g: Geometry, rp: seq<nat>, s: State, runs: Runs, p: Page, bits: Bits)
    requires Purging(g, rp, s, runs, p.c) && p in runs && runs[p].kind.Free? && runs[p].dirty
    requires Within(s.bits, bits, p, runs[p].len) && Shows(bits, p, Run(runs[p].len, Large, false))
    ensures Purging(g, rp, StashState(s, p, runs[p].len, bits), Relabel(runs, p, Large, false), p.c)
  {
    var runs' := Relabel(runs, p, Large, false);
    RelabelKeeps(g, runs, p, Large, false);
    RelabelShows(g, s.bits, bits, runs, p, Large, false);
    StashCounts(g, s, runs, p, bits);
    forall q | q in runs' ensures NotBothFree(runs', q) {
      assert NotBothFree(runs, q);
    }
  }

  /** All dirty runs of the chunk are taken: it has no dirty pages and is not listed. */
  function PurgedState(s: State, c: nat): State
    requires c in s.chunkDirty && s.chunkDirty[c] <= s.ndirty
  {
    s.(ndirty := s.ndirty - s.chunkDirty[c], chunkDirty := s.chunkDirty[c := 0], chunksDirty := RemoveFrom(s.chunksDirty, c))
  }

  lemma PurgedKeeps(g: Geometry, rp: seq<nat>, s: State, runs: Runs, c: nat)
    requires Purging(g, rp, s, runs, c)
    requires forall p :: p in runs && p.c == c ==> !(runs[p].kind.Free? && runs[p].dirty)
    ensures s.chunkDirty[c] <= s.ndirty && Inv(g, rp, PurgedState(s, c), runs)
  {
    SumElsewhere(runs, c);
    var s' := PurgedState(s, c);
    RemoveDistinct(s.chunksDirty, c);
    forall k | k in s'.chunkDirty ensures ChunkCount(s', runs, k) {
      if k != c {
        assert ChunkCount(s, runs, k);
      }
    }
  }

  lemma StartPurging(g: Geometry, rp: seq<nat>, s: State, runs: Runs, c: nat)
    requires Inv(g, rp, s, runs) && c in s.chunkDirty && s.spare != Some(c)
    ensures Purging(g, rp, s, runs, c)
  {
    assert ChunkCount(s, runs, c);
  }

  // --------------------------------------------------------------------------
  // Coalescing, read from the page map
  // --------------------------------------------------------------------------

  /** At most one run ends at a page. */
  lemma PrevUnique(g: Geometry, runs: Runs, o: Page, q: Page, p: Page)
    requires Tiled(g, runs) && EndsAt(runs, o, p) && EndsAt(runs, q, p)
    ensures o == q
  {
    assert RunOk(g, runs, o) && RunOk(g, runs, q);
    assert RunsApart(runs, o, q) && RunsApart(runs, q, o);
  }

  /** What the entries around two neighbouring free runs say, and what joining them means. */
  lemma JoinBits(g: Geometry, bits: Bits, runs: Runs, p: Page)
    requires Tiled(g, runs) && AllShow(bits, runs) && p in runs && After(runs, p) in runs
    requires runs[p].kind.Free? && runs[After(runs, p)].kind.Free? && runs[p].dirty == runs[After(runs, p)].dirty
    ensures var n := runs[p].len + runs[After(runs, p)].len;
      && n > 1 && p in bits && bits[p].Unallocated? && LastOf(p, n) in bits && bits[LastOf(p, n)].Unallocated? && LastOf(p, n) != p
      && Within(bits, SizeSet(SizeSet(bits, p, n), LastOf(p, n), n), p, n)
      && Shows(SizeSet(SizeSet(bits, p, n), LastOf(p, n), n), p, Run(n, Free, runs[p].dirty))
  {
    var m := After(runs, p);
    assert RunOk(g, runs, p) && RunOk(g, runs, m);
    assert ShowsAt(bits, runs, p) && ShowsAt(bits, runs, m);
    assert LastOf(m, runs[m].len) == LastOf(p, runs[p].len + runs[m].len);
  }

  /** arena_mapbits_unallocated_size_set. */
  function SizeSet(bits: Bits, p: Page, n: nat): Bits
    requires p in bits && bits[p].Unallocated?
  {
    bits[p := bits[p].(size := n)]
  }

  /** The run after `p` was absorbed; what follows it differs. */
  lemma JoinedNext(g: Geometry, runs: Runs, p: Page)
    requires Tiled(g, runs) && CoalescedExcept(runs, p) && p in runs && After(runs, p) in runs
    requires runs[After(runs, p)].kind.Free? && runs[After(runs, p)].dirty == runs[p].dirty
    ensures p in Merge(runs, p, Free, runs[p].dirty) && NextDiffers(Merge(runs, p, Free, runs[p].dirty), p)
  {
    var m := After(runs, p);
    assert RunOk(g, runs, p) && RunOk(g, runs, m);
    assert NotBothFree(runs, m);
  }

  /** The run at `p` was absorbed by the one before it; what surrounds the result differs. */
  lemma JoinedPrev(g: Geometry, runs: Runs, q: Page, p: Page)
    requires Tiled(g, runs) && CoalescedExcept(runs, p) && EndsAt(runs, q, p) && p in runs && NextDiffers(runs, p)
    requires runs[q].kind.Free? && runs[p].kind.Free? && runs[q].dirty == runs[p].dirty
    ensures var runs' := Merge(runs, q, Free, runs[p].dirty); q in runs' && NextDiffers(runs', q) && PrevDiffers(runs', q)
  {
    var runs' := Merge(runs, q, Free, runs[p].dirty);
    assert RunOk(g, runs, p) && RunOk(g, runs, q);
    forall o | EndsAt(runs', o, q) ensures NotBothFree(runs', o) {
      assert o != q && o in runs && RunOk(g, runs, o);
      assert NotBothFree(runs, o);
    }
  }

  /** The run before `p` differs from it. */
  lemma PrevStays(g: Geometry, runs: Runs, q: Page, p: Page)
    requires Tiled(g, runs) && EndsAt(runs, q, p) && p in runs
    requires runs[q].kind.Free? ==> runs[q].dirty != runs[p].dirty
    ensures PrevDiffers(runs, p)
  {
    forall o | EndsAt(runs, o, p) ensures NotBothFree(runs, o) {
      PrevUnique(g, runs, o, q, p);
    }
  }

  lemma FirstRunNoPrev(g: Geometry, runs: Runs, p: Page)
    requires Tiled(g, runs) && p in runs && p.i <= g.bias
    ensures PrevDiffers(runs, p)
  {
    forall o ensures !EndsAt(runs, o, p) {
      assert o in runs ==> RunOk(g, runs, o);
    }
  }

  lemma LastRunNoNext(g: Geometry, runs: Runs, p: Page)
    requires Tiled(g, runs) && p in runs
    ensures p.i + runs[p].len >= g.np ==> After(runs, p) !in runs
    ensures p.i + runs[p].len < g.np ==> After(runs, p) in runs
  {
    assert RunOk(g, runs, p);
    assert After(runs, p) in runs ==> RunOk(g, runs, After(runs, p));
  }
}
