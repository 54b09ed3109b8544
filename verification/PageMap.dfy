/**
 * The page map entries that describe the runs: the first and the last entry of a free or a
 * large run, and all entries of a small run.
 */
module PageMap {
  import opened PageRuns

  datatype Entry =
    | Unallocated(size: nat, dirty: bool)
    | LargeBits(size: nat, dirty: bool)
    | SmallBits(runind: nat, bin: nat, dirty: bool)

  type Bits = map<Page, Entry>

  function LastOf(p: Page, len: nat): Page
    requires len > 0
  {
    Page(p.c, p.i + len - 1)
  }

  /** The entries describe the run at `p`. */
  ghost predicate Shows(bits: Bits, p: Page, r: Run) {
    && r.len > 0 && p in bits && LastOf(p, r.len) in bits
    && match r.kind
       case Free => bits[p] == Unallocated(r.len, r.dirty) && bits[LastOf(p, r.len)] == Unallocated(r.len, r.dirty)
       case Large => bits[p] == LargeBits(r.len, r.dirty) && (r.len > 1 ==> bits[LastOf(p, r.len)] == LargeBits(0, r.dirty))
       case Small(b) =>
         && bits[p].SmallBits? && bits[p].dirty == r.dirty
         && bits[LastOf(p, r.len)].SmallBits? && bits[LastOf(p, r.len)].dirty == r.dirty
         && forall j :: p.i <= j < p.i + r.len ==> SmallAt(bits, Page(p.c, j), j - p.i, b)
  }

  ghost predicate SmallAt(bits: Bits, p: Page, runind: nat, b: nat) {
    p in bits && bits[p].SmallBits? && bits[p].runind == runind && bits[p].bin == b
  }

  ghost predicate ShowsAt(bits: Bits, runs: Runs, p: Page)
    requires p in runs
  {
    Shows(bits, p, runs[p])
  }

  ghost predicate AllShow(bits: Bits, runs: Runs) {
    forall p {:trigger ShowsAt(bits, runs, p)} :: p in runs ==> ShowsAt(bits, runs, p)
  }

  /** Only entries of pages `p.i` to `p.i + n - 1` differ. */
  ghost predicate Within(bits: Bits, bits': Bits, p: Page, n: nat) {
    forall a :: a in bits && !(a.c == p.c && p.i <= a.i < p.i + n) ==> a in bits' && bits'[a] == bits[a]
  }

  lemma ShowsFrame(bits: Bits, bits': Bits, p: Page, r: Run, q: Page, n: nat)
    requires Shows(bits, p, r) && Within(bits, bits', q, n)
    requires p.c != q.c || p.i + r.len <= q.i || q.i + n <= p.i
    ensures Shows(bits', p, r)
  {
    if r.kind.Small? {
      forall j | p.i <= j < p.i + r.len ensures SmallAt(bits', Page(p.c, j), j - p.i, r.kind.bin) {
        assert SmallAt(bits, Page(p.c, j), j - p.i, r.kind.bin);
      }
    }
  }

  /** A run of `runs'` lies in the span, where it is shown, or is an old run outside. */
  ghost predicate KnownRun(bits': Bits, runs: Runs, runs': Runs, q: Page, n: nat, p: Page)
    requires p in runs'
  {
    || ShowsAt(bits', runs', p)
    || (p in runs && runs[p] == runs'[p] && (p.c != q.c || p.i + runs[p].len <= q.i || q.i + n <= p.i))
  }

  lemma AllShowAfter(bits: Bits, bits': Bits, runs: Runs, runs': Runs, q: Page, n: nat)
    requires AllShow(bits, runs) && Within(bits, bits', q, n)
    requires forall p {:trigger KnownRun(bits', runs, runs', q, n, p)} :: p in runs' ==> KnownRun(bits', runs, runs', q, n, p)
    ensures AllShow(bits', runs')
  {
    forall p | p in runs' ensures ShowsAt(bits', runs', p) {
      assert KnownRun(bits', runs, runs', q, n, p);
      if !ShowsAt(bits', runs', p) {
        assert ShowsAt(bits, runs, p);
        ShowsFrame(bits, bits', p, runs[p], q, n);
      }
    }
  }

  /** Mark a run unallocated: its first and its last entry. */
  function PutFree(bits: Bits, p: Page, len: nat, dirty: bool): Bits
    requires len > 0
  {
    bits[p := Unallocated(len, dirty)][LastOf(p, len) := Unallocated(len, dirty)]
  }

  /** Mark a large run: the last entry first, in case they are the same. */
  function PutLarge(bits: Bits, p: Page, len: nat, dirty: bool): Bits
    requires len > 0
  {
    bits[LastOf(p, len) := LargeBits(0, dirty)][p := LargeBits(len, dirty)]
  }

  lemma PutFreeShows(bits: Bits, p: Page, len: nat, dirty: bool)
    requires len > 0
    ensures Shows(PutFree(bits, p, len, dirty), p, Run(len, Free, dirty)) && Within(bits, PutFree(bits, p, len, dirty), p, len)
  {
  }

  lemma PutLargeShows(bits: Bits, p: Page, len: nat, dirty: bool)
    requires len > 0
    ensures Shows(PutLarge(bits, p, len, dirty), p, Run(len, Large, dirty)) && Within(bits, PutLarge(bits, p, len, dirty), p, len)
  {
  }

  // --------------------------------------------------------------------------
  // What the operations do to the description
  // --------------------------------------------------------------------------

  lemma RelabelShows(g: Geometry, bits: Bits, bits': Bits, runs: Runs, p: Page, kind: Kind, dirty: bool)
    requires Tiled(g, runs) && AllShow(bits, runs) && p in runs && Within(bits, bits', p, runs[p].len)
    requires Shows(bits', p, Run(runs[p].len, kind, dirty))
    ensures AllShow(bits', Relabel(runs, p, kind, dirty))
  {
    var runs' := Relabel(runs, p, kind, dirty);
    forall q | q in runs' ensures KnownRun(bits', runs, runs', p, runs[p].len, q) {
      if q == p {
        assert ShowsAt(bits', runs', p);
      } else {
        assert RunsApart(runs, p, q) && RunsApart(runs, q, p);
      }
    }
    AllShowAfter(bits, bits', runs, runs', p, runs[p].len);
  }

  lemma DivideShows(g: Geometry, bits: Bits, bits': Bits, runs: Runs, p: Page, n: nat, a: Kind, b: Kind, dirty: bool)
    requires Tiled(g, runs) && AllShow(bits, runs) && p in runs && 0 < n < runs[p].len && Within(bits, bits', p, runs[p].len)
    requires Shows(bits', p, Run(n, a, dirty)) && Shows(bits', Page(p.c, p.i + n), Run(runs[p].len - n, b, dirty))
    ensures AllShow(bits', Divide(runs, p, n, a, b, dirty))
  {
    var runs', m := Divide(runs, p, n, a, b, dirty), Page(p.c, p.i + n);
    forall q | q in runs' ensures KnownRun(bits', runs, runs', p, runs[p].len, q) {
      if q == p || q == m {
        assert ShowsAt(bits', runs', q);
      } else {
        assert RunsApart(runs, p, q) && RunsApart(runs, q, p);
      }
    }
    AllShowAfter(bits, bits', runs, runs', p, runs[p].len);
  }

  lemma MergeShows(g: Geometry, bits: Bits, bits': Bits, runs: Runs, p: Page, kind: Kind, dirty: bool)
    requires Tiled(g, runs) && AllShow(bits, runs) && p in runs && After(runs, p) in runs
    requires Within(bits, bits', p, runs[p].len + runs[After(runs, p)].len)
    requires Shows(bits', p, Run(runs[p].len + runs[After(runs, p)].len, kind, dirty))
    ensures AllShow(bits', Merge(runs, p, kind, dirty))
  {
    var runs', m := Merge(runs, p, kind, dirty), After(runs, p);
    var n := runs[p].len + runs[m].len;
    forall q | q in runs' ensures KnownRun(bits', runs, runs', p, n, q) {
      if q == p {
        assert ShowsAt(bits', runs', q);
      } else {
        assert RunsApart(runs, p, q) && RunsApart(runs, q, p) && RunsApart(runs, m, q) && RunsApart(runs, q, m);
        assert RunOk(g, runs, p) && RunOk(g, runs, m) && RunOk(g, runs, q);
      }
    }
    AllShowAfter(bits, bits', runs, runs', p, n);
  }
}
