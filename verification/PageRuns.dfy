/**
 * The pages of an arena's chunks, tiled by runs.  A run is known by its first page.  All
 * changes are made of three: divide a run, merge a run with the next, and relabel a run.
 */
module PageRuns {
  /** Page `i` of chunk `c`. */
  datatype Page = Page(c: nat, i: nat)

  datatype Kind = Free | Large | Small(bin: nat)

  datatype Run = Run(len: nat, kind: Kind, dirty: bool)

  type Runs = map<Page, Run>

  /** Pages `bias` to `np - 1` of each chunk hold runs; the first ones hold its header. */
  datatype Geometry = Geometry(bias: nat, np: nat) {
    ghost predicate Ok() {
      bias < np
    }

    function MaxLen(): int {
      np - bias
    }
  }

  /** The page after the run. */
  function After(runs: Runs, p: Page): Page
    requires p in runs
  {
    Page(p.c, p.i + runs[p].len)
  }

  ghost predicate RunOk(g: Geometry, runs: Runs, p: Page)
    requires p in runs
  {
    && runs[p].len > 0 && g.bias <= p.i && p.i + runs[p].len <= g.np
    && (p.i + runs[p].len < g.np ==> After(runs, p) in runs)
    && Page(p.c, g.bias) in runs
  }

  ghost predicate RunsApart(runs: Runs, p: Page, q: Page)
    requires p in runs && q in runs
  {
    p.c == q.c && p.i < q.i ==> p.i + runs[p].len <= q.i
  }

  /** Run `q` ends where page `p` begins. */
  ghost predicate EndsAt(runs: Runs, q: Page, p: Page) {
    q in runs && After(runs, q) == p
  }

  ghost predicate HasPrev(g: Geometry, runs: Runs, p: Page) {
    p.i > g.bias ==> exists q :: EndsAt(runs, q, p)
  }

  ghost predicate Tiled(g: Geometry, runs: Runs) {
    && (forall p {:trigger RunOk(g, runs, p)} :: p in runs ==> RunOk(g, runs, p))
    && (forall p {:trigger HasPrev(g, runs, p)} :: p in runs ==> HasPrev(g, runs, p))
    && (forall p, q {:trigger RunsApart(runs, p, q)} :: p in runs && q in runs ==> RunsApart(runs, p, q))
  }

  /** Two neighbouring free runs are not both clean nor both dirty. */
  ghost predicate NotBothFree(runs: Runs, p: Page)
    requires p in runs
  {
    After(runs, p) in runs && runs[p].kind.Free? && runs[After(runs, p)].kind.Free? ==> runs[p].dirty != runs[After(runs, p)].dirty
  }

  ghost predicate Coalesced(runs: Runs) {
    forall p {:trigger NotBothFree(runs, p)} :: p in runs ==> NotBothFree(runs, p)
  }

  /** Run `p` becomes two; the second has kind and dirtiness of its own. */
  function Divide(runs: Runs, p: Page, n: nat, a: Kind, b: Kind, dirty: bool): Runs
    requires p in runs && n <= runs[p].len
  {
    runs[p := Run(n, a, dirty)][Page(p.c, p.i + n) := Run(runs[p].len - n, b, dirty)]
  }

  /** Run `p` absorbs the run after it. */
  function Merge(runs: Runs, p: Page, kind: Kind, dirty: bool): Runs
    requires p in runs && After(runs, p) in runs
  {
    (runs - {After(runs, p)})[p := Run(runs[p].len + runs[After(runs, p)].len, kind, dirty)]
  }

  function Relabel(runs: Runs, p: Page, kind: Kind, dirty: bool): Runs
    requires p in runs
  {
    runs[p := Run(runs[p].len, kind, dirty)]
  }

  lemma RelabelKeeps(g: Geometry, runs: Runs, p: Page, kind: Kind, dirty: bool)
    requires Tiled(g, runs) && p in runs
    ensures Tiled(g, Relabel(runs, p, kind, dirty))
  {
    var runs' := Relabel(runs, p, kind, dirty);
    forall q | q in runs' ensures RunOk(g, runs', q) && HasPrev(g, runs', q) {
      assert RunOk(g, runs, q) && HasPrev(g, runs, q);
      if q.i > g.bias {
        var o :| EndsAt(runs, o, q);
        assert EndsAt(runs', o, q);
      }
    }
    forall q, r | q in runs' && r in runs' ensures RunsApart(runs', q, r) {
      assert RunsApart(runs, q, r);
    }
  }

  lemma NoneInside(g: Geometry, runs: Runs, p: Page, n: nat)
    requires Tiled(g, runs) && p in runs && 0 < n < runs[p].len
    ensures Page(p.c, p.i + n) !in runs
  {
    var m := Page(p.c, p.i + n);
    assert m in runs ==> RunsApart(runs, p, m);
  }

  lemma DivideKeeps(g: Geometry, runs: Runs, p: Page, n: nat, a: Kind, b: Kind, dirty: bool)
    requires Tiled(g, runs) && p in runs && 0 < n < runs[p].len
    ensures Tiled(g, Divide(runs, p, n, a, b, dirty)) && Page(p.c, p.i + n) !in runs
  {
    var runs', m := Divide(runs, p, n, a, b, dirty), Page(p.c, p.i + n);
    assert RunOk(g, runs, p);
    NoneInside(g, runs, p, n);
    forall q | q in runs' ensures RunOk(g, runs', q) {
      assert q != m ==> RunOk(g, runs, q);
    }
    forall q | q in runs' ensures HasPrev(g, runs', q) {
      DividePrev(g, runs, p, n, a, b, dirty, q);
    }
    forall q, r | q in runs' && r in runs' ensures RunsApart(runs', q, r) {
      DivideApart(g, runs, p, n, a, b, dirty, q, r);
    }
  }

  lemma DividePrev(g: Geometry, runs: Runs, p: Page, n: nat, a: Kind, b: Kind, dirty: bool, q: Page)
    requires Tiled(g, runs) && p in runs && 0 < n < runs[p].len && q in Divide(runs, p, n, a, b, dirty)
    requires Page(p.c, p.i + n) !in runs
    ensures HasPrev(g, Divide(runs, p, n, a, b, dirty), q)
  {
    var runs', m := Divide(runs, p, n, a, b, dirty), Page(p.c, p.i + n);
    if q == m {
      assert EndsAt(runs', p, q);
    } else if q.i > g.bias {
      assert HasPrev(g, runs, q);
      var o :| EndsAt(runs, o, q);
      assert EndsAt(runs', if o == p then m else o, q);
    }
  }

  lemma DivideApart(g: Geometry, runs: Runs, p: Page, n: nat, a: Kind, b: Kind, dirty: bool, q: Page, r: Page)
    requires Tiled(g, runs) && p in runs && 0 < n < runs[p].len
    requires q in Divide(runs, p, n, a, b, dirty) && r in Divide(runs, p, n, a, b, dirty)
    ensures RunsApart(Divide(runs, p, n, a, b, dirty), q, r)
  {
    var m := Page(p.c, p.i + n);
    var q', r' := if q == m then p else q, if r == m then p else r;
    assert RunsApart(runs, q', r') && RunsApart(runs, r', q');
  }

  lemma MergeKeeps(g: Geometry, runs: Runs, p: Page, kind: Kind, dirty: bool)
    requires Tiled(g, runs) && p in runs && After(runs, p) in runs
    ensures Tiled(g, Merge(runs, p, kind, dirty))
  {
    var runs' := Merge(runs, p, kind, dirty);
    forall q | q in runs' ensures RunOk(g, runs', q) && HasPrev(g, runs', q) {
      MergeRun(g, runs, p, kind, dirty, q);
      MergePrev(g, runs, p, kind, dirty, q);
    }
    forall q, r | q in runs' && r in runs' ensures RunsApart(runs', q, r) {
      assert RunOk(g, runs, p);
      assert RunsApart(runs, q, r) && RunsApart(runs, After(runs, p), r);
    }
  }

  lemma MergeRun(g: Geometry, runs: Runs, p: Page, kind: Kind, dirty: bool, q: Page)
    requires Tiled(g, runs) && p in runs && After(runs, p) in runs && q in Merge(runs, p, kind, dirty)
    ensures RunOk(g, Merge(runs, p, kind, dirty), q)
  {
    var m := After(runs, p);
    assert RunOk(g, runs, p) && RunOk(g, runs, m) && RunOk(g, runs, q);
    assert RunsApart(runs, q, p) && RunsApart(runs, p, q);
  }

  lemma MergePrev(g: Geometry, runs: Runs, p: Page, kind: Kind, dirty: bool, q: Page)
    requires Tiled(g, runs) && p in runs && After(runs, p) in runs && q in Merge(runs, p, kind, dirty)
    ensures HasPrev(g, Merge(runs, p, kind, dirty), q)
  {
    var runs', m := Merge(runs, p, kind, dirty), After(runs, p);
    assert RunOk(g, runs, p) && RunOk(g, runs, m);
    if q.i > g.bias {
      assert HasPrev(g, runs, q);
      var o :| EndsAt(runs, o, q);
      assert EndsAt(runs', if o == m then p else o, q);
    }
  }

  /** A chunk with one free run. */
  function WithChunk(g: Geometry, runs: Runs, c: nat): Runs
    requires g.Ok()
  {
    runs[Page(c, g.bias) := Run(g.MaxLen(), Free, false)]
  }

  ghost predicate NoRunsIn(runs: Runs, c: nat) {
    forall p :: p in runs ==> p.c != c
  }

  lemma WithChunkKeeps(g: Geometry, runs: Runs, c: nat)
    requires g.Ok() && Tiled(g, runs) && NoRunsIn(runs, c)
    ensures Tiled(g, WithChunk(g, runs, c))
  {
    var runs' := WithChunk(g, runs, c);
    forall q | q in runs' ensures RunOk(g, runs', q) && HasPrev(g, runs', q) {
      if q in runs {
        assert RunOk(g, runs, q) && HasPrev(g, runs, q);
        if q.i > g.bias {
          var o :| EndsAt(runs, o, q);
          assert EndsAt(runs', o, q);
        }
      }
    }
    forall q, r | q in runs' && r in runs' ensures RunsApart(runs', q, r) {
      if q in runs && r in runs {
        assert RunsApart(runs, q, r);
      }
    }
  }

  /** A run of full length is alone in its chunk. */
  lemma WholeChunk(g: Geometry, runs: Runs, c: nat, q: Page)
    requires g.Ok() && Tiled(g, runs) && Page(c, g.bias) in runs && runs[Page(c, g.bias)].len == g.MaxLen()
    requires q in runs && q.c == c
    ensures q == Page(c, g.bias)
  {
    assert RunOk(g, runs, q);
    assert RunsApart(runs, Page(c, g.bias), q);
  }

  lemma WithoutChunkKeeps(g: Geometry, runs: Runs, c: nat)
    requires g.Ok() && Tiled(g, runs) && Page(c, g.bias) in runs && runs[Page(c, g.bias)].len == g.MaxLen()
    ensures Tiled(g, runs - {Page(c, g.bias)}) && NoRunsIn(runs - {Page(c, g.bias)}, c)
  {
    var runs' := runs - {Page(c, g.bias)};
    forall q | q in runs' ensures q.c != c {
      if q.c == c {
        WholeChunk(g, runs, c, q);
      }
    }
    forall q | q in runs' ensures RunOk(g, runs', q) && HasPrev(g, runs', q) {
      assert RunOk(g, runs, q) && HasPrev(g, runs, q);
      if q.i > g.bias {
        var o :| EndsAt(runs, o, q);
        assert EndsAt(runs', o, q);
      }
    }
    forall q, r | q in runs' && r in runs' ensures RunsApart(runs', q, r) {
      assert RunsApart(runs, q, r);
    }
  }

  // --------------------------------------------------------------------------
  // Counting pages
  // --------------------------------------------------------------------------

  /** What is counted: pages in use, free dirty pages, free dirty pages of one chunk. */
  datatype Count = Active | Dirty | DirtyIn(c: nat)

  function Weight(w: Count, p: Page, r: Run): nat {
    match w
    case Active => if r.kind.Free? then 0 else r.len
    case Dirty => if r.kind.Free? && r.dirty then r.len else 0
    case DirtyIn(c) => if p.c == c && r.kind.Free? && r.dirty then r.len else 0
  }

  /** The recount. */
  ghost function Sum(w: Count, runs: Runs): nat {
    if runs == map[] then 0
    else
      var p :| p in runs;
      Weight(w, p, runs[p]) + Sum(w, runs - {p})
  }

  lemma {:induction false} SumWithout(w: Count, runs: Runs, p: Page)
    requires p in runs
    ensures Sum(w, runs) == Weight(w, p, runs[p]) + Sum(w, runs - {p})
    decreases |runs|
  {
    var q :| q in runs && Sum(w, runs) == Weight(w, q, runs[q]) + Sum(w, runs - {q});
    if q != p {
      SumWithout(w, runs - {q}, p);
      SumWithout(w, runs - {p}, q);
      assert runs - {q} - {p} == runs - {p} - {q};
    }
  }

  lemma SumWith(w: Count, runs: Runs, p: Page, r: Run)
    ensures Sum(w, runs[p := r]) == Weight(w, p, r) + Sum(w, runs - {p})
  {
    SumWithout(w, runs[p := r], p);
    assert runs[p := r] - {p} == runs - {p};
  }

  lemma SumRelabel(w: Count, runs: Runs, p: Page, kind: Kind, dirty: bool)
    requires p in runs
    ensures Sum(w, Relabel(runs, p, kind, dirty)) == Sum(w, runs) - Weight(w, p, runs[p]) + Weight(w, p, Run(runs[p].len, kind, dirty))
  {
    SumWithout(w, runs, p);
    SumWith(w, runs, p, Run(runs[p].len, kind, dirty));
  }

  lemma SumDivide(w: Count, runs: Runs, p: Page, n: nat, a: Kind, b: Kind, dirty: bool)
    requires p in runs && 0 < n <= runs[p].len && Page(p.c, p.i + n) !in runs
    ensures Sum(w, Divide(runs, p, n, a, b, dirty)) ==
      Sum(w, runs) - Weight(w, p, runs[p]) + Weight(w, p, Run(n, a, dirty)) + Weight(w, p, Run(runs[p].len - n, b, dirty))
  {
    var m := Page(p.c, p.i + n);
    SumWithout(w, runs, p);
    SumWith(w, runs, p, Run(n, a, dirty));
    SumWith(w, runs[p := Run(n, a, dirty)], m, Run(runs[p].len - n, b, dirty));
    assert runs[p := Run(n, a, dirty)] - {m} == runs[p := Run(n, a, dirty)];
  }

  lemma SumMerge(w: Count, runs: Runs, p: Page, kind: Kind, dirty: bool)
    requires p in runs && After(runs, p) in runs && runs[p].len > 0
    ensures Sum(w, Merge(runs, p, kind, dirty)) ==
      Sum(w, runs) - Weight(w, p, runs[p]) - Weight(w, p, runs[After(runs, p)]) +
      Weight(w, p, Run(runs[p].len + runs[After(runs, p)].len, kind, dirty))
  {
    var m := After(runs, p);
    SumWithout(w, runs, m);
    SumWithout(w, runs - {m}, p);
    SumWith(w, runs - {m}, p, Run(runs[p].len + runs[m].len, kind, dirty));
  }

  /** A chunk without runs has no dirty pages. */
  lemma {:induction false} SumElsewhere(runs: Runs, c: nat)
    requires forall p :: p in runs && p.c == c ==> !(runs[p].kind.Free? && runs[p].dirty)
    ensures Sum(DirtyIn(c), runs) == 0
    decreases |runs|
  {
    if runs != map[] {
      var p :| p in runs;
      SumWithout(DirtyIn(c), runs, p);
      SumElsewhere(runs - {p}, c);
    }
  }

  /** The dirty pages of a chunk are among all dirty pages. */
  lemma {:induction false} SumIn(runs: Runs, c: nat)
    ensures Sum(DirtyIn(c), runs) <= Sum(Dirty, runs)
    decreases |runs|
  {
    if runs != map[] {
      var p :| p in runs;
      SumWithout(DirtyIn(c), runs, p);
      SumWithout(Dirty, runs, p);
      SumIn(runs - {p}, c);
    }
  }
}
