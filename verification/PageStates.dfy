/** Which pages are free and dirty, free and clean, in use or not mapped, and how that changes. */
module PageStates {
  import opened PageRuns

  /** Page `a` is one of the `len` pages from `p` on. */
  predicate Spans(p: Page, len: nat, a: Page) {
    a.c == p.c && p.i <= a.i < p.i + len
  }

  ghost function PagesOf(p: Page, len: nat): (w: set<Page>)
    ensures forall a :: a in w <==> Spans(p, len, a)
  {
    var w := set i | p.i <= i < p.i + len :: Page(p.c, i);
    assert forall a :: Spans(p, len, a) ==> a == Page(p.c, a.i);
    w
  }

  ghost function Only(b: bool, w: set<Page>): set<Page> {
    if b then w else {}
  }

  ghost predicate FreeAt(runs: Runs, p: Page, d: bool, a: Page)
    requires p in runs
  {
    runs[p].kind.Free? && runs[p].dirty == d && Spans(p, runs[p].len, a)
  }

  /** The page is free, and dirty or clean as `d` says. */
  ghost predicate FreeAs(runs: Runs, d: bool, a: Page) {
    exists p :: p in runs && FreeAt(runs, p, d, a)
  }

  ghost predicate InRun(runs: Runs, p: Page, a: Page) {
    p in runs && Spans(p, runs[p].len, a)
  }

  ghost predicate Mapped(runs: Runs, a: Page) {
    exists p :: InRun(runs, p, a)
  }

  /** Only pages in `w` have become free with dirtiness `d`. */
  ghost predicate Gains(runs: Runs, runs': Runs, d: bool, w: set<Page>) {
    forall a {:trigger FreeAs(runs', d, a)} :: FreeAs(runs', d, a) ==> FreeAs(runs, d, a) || a in w
  }

  /** Only pages in `dirtied` have become free and dirty, only pages in `cleaned` free and clean. */
  ghost predicate Turned(runs: Runs, runs': Runs, dirtied: set<Page>, cleaned: set<Page>) {
    Gains(runs, runs', true, dirtied) && Gains(runs, runs', false, cleaned)
  }

  lemma TurnedOn(r0: Runs, r1: Runs, r2: Runs, d1: set<Page>, c1: set<Page>, d2: set<Page>, c2: set<Page>)
    requires Turned(r0, r1, d1, c1) && Turned(r1, r2, d2, c2)
    ensures Turned(r0, r2, d1 + d2, c1 + c2)
  {
    forall a | FreeAs(r2, true, a) ensures FreeAs(r0, true, a) || a in d1 + d2 {
      assert FreeAs(r1, true, a) || a in d2;
    }
    forall a | FreeAs(r2, false, a) ensures FreeAs(r0, false, a) || a in c1 + c2 {
      assert FreeAs(r1, false, a) || a in c2;
    }
  }

  lemma RelabelTurns(runs: Runs, p: Page, kind: Kind, dirty: bool)
    requires p in runs
    ensures var w := PagesOf(p, runs[p].len);
      Turned(runs, Relabel(runs, p, kind, dirty), Only(kind.Free? && dirty, w), Only(kind.Free? && !dirty, w))
  {
    var runs', w := Relabel(runs, p, kind, dirty), PagesOf(p, runs[p].len);
    forall d, a | FreeAs(runs', d, a) ensures FreeAs(runs, d, a) || a in Only(kind.Free? && dirty == d, w) {
      var q :| q in runs' && FreeAt(runs', q, d, a);
      assert q != p ==> FreeAt(runs, q, d, a);
    }
  }

  /** Two free runs of equal dirtiness become one. */
  lemma MergeTurns(runs: Runs, p: Page, dirty: bool)
    requires p in runs && After(runs, p) in runs
    requires runs[p].kind.Free? && runs[p].dirty == dirty && runs[After(runs, p)].kind.Free? && runs[After(runs, p)].dirty == dirty
    ensures Turned(runs, Merge(runs, p, Free, dirty), {}, {})
  {
    var runs', m := Merge(runs, p, Free, dirty), After(runs, p);
    forall d, a | FreeAs(runs', d, a) ensures FreeAs(runs, d, a) {
      var q :| q in runs' && FreeAt(runs', q, d, a);
      if q != p {
        assert FreeAt(runs, q, d, a);
      } else if a.i < m.i {
        assert FreeAt(runs, p, d, a);
      } else {
        assert FreeAt(runs, m, d, a);
      }
    }
  }

  /** Every free run was there before. */
  lemma FewerFree(runs: Runs, runs': Runs)
    requires forall q :: q in runs' && runs'[q].kind.Free? ==> q in runs && runs[q] == runs'[q]
    ensures Turned(runs, runs', {}, {})
  {
    forall d, a | FreeAs(runs', d, a) ensures FreeAs(runs, d, a) {
      var q :| q in runs' && FreeAt(runs', q, d, a);
      assert FreeAt(runs, q, d, a);
    }
  }

  /** What is left of a free run stays as it was. */
  lemma RestTurns(runs: Runs, p: Page, n: nat, kind: Kind)
    requires p in runs && runs[p].kind.Free? && 0 < n < runs[p].len && !kind.Free?
    ensures Turned(runs, Divide(runs, p, n, kind, Free, runs[p].dirty), {}, {})
  {
    var runs', m := Divide(runs, p, n, kind, Free, runs[p].dirty), Page(p.c, p.i + n);
    forall d, a | FreeAs(runs', d, a) ensures FreeAs(runs, d, a) {
      var q :| q in runs' && FreeAt(runs', q, d, a);
      assert FreeAt(runs, if q == m then p else q, d, a);
    }
  }

  /** A new run, free and clean. */
  lemma NewTurns(runs: Runs, p: Page, len: nat)
    ensures Turned(runs, runs[p := Run(len, Free, false)], {}, PagesOf(p, len))
  {
    var runs' := runs[p := Run(len, Free, false)];
    forall d, a | FreeAs(runs', d, a) ensures FreeAs(runs, d, a) || (!d && a in PagesOf(p, len)) {
      var q :| q in runs' && FreeAt(runs', q, d, a);
      assert q != p ==> FreeAt(runs, q, d, a);
    }
  }

  // --------------------------------------------------------------------------
  // What follows for a page
  // --------------------------------------------------------------------------

  lemma OneRun(g: Geometry, runs: Runs, p: Page, q: Page, a: Page)
    requires Tiled(g, runs) && InRun(runs, p, a) && InRun(runs, q, a)
    ensures p == q
  {
    assert RunsApart(runs, p, q) && RunsApart(runs, q, p);
  }

  /** A page of a run in use is not free. */
  lemma InUseNotFree(g: Geometry, runs: Runs, p: Page, d: bool, a: Page)
    requires Tiled(g, runs) && InRun(runs, p, a) && !runs[p].kind.Free?
    ensures !FreeAs(runs, d, a)
  {
    forall q | q in runs ensures !FreeAt(runs, q, d, a) {
      if InRun(runs, q, a) {
        OneRun(g, runs, p, q, a);
      }
    }
  }

  /** A page that is mapped is in use, dirty or clean. */
  lemma MappedIs(runs: Runs, a: Page) returns (p: Page)
    requires Mapped(runs, a)
    ensures InRun(runs, p, a) && (runs[p].kind.Free? ==> FreeAs(runs, runs[p].dirty, a))
  {
    p :| InRun(runs, p, a);
    if runs[p].kind.Free? {
      assert FreeAt(runs, p, runs[p].dirty, a);
    }
  }
}
