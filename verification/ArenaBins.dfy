/**
 * One bin of small runs, used by threads that drop the bin lock to allocate or to release a
 * run.  A method is one critical section of the bin lock, or one of the arena lock; any
 * interleaving may occur.
 */
module ArenaBins {
  import opened Basics
  import opened Traces

  type Tid = nat
  /** The address of a run. */
  type RunId = nat

  /** The fields of a run header, and the set bits of its bitmap. */
  datatype Header = Header(nfree: nat, nextind: nat, alloc: set<nat>)

  /** Where a thread is when it does not hold the bin lock. */
  datatype Pc = Idle | NeedRun | GotRun(run: Option<RunId>) | Releasing(r: RunId)

  predicate Holds(pc: Pc, r: RunId) {
    pc == GotRun(Some(r)) || pc == Releasing(r)
  }

  /** A region: its run and its index. */
  datatype Region = Region(r: RunId, regind: nat)

  /** bitmap_sfu: the least index whose bit is not set. */
  function LeastFree(alloc: set<nat>, nregs: nat, from: nat): (i: nat)
    requires from <= nregs && (forall j :: j in alloc ==> j < nregs) && |alloc| < nregs && forall j :: 0 <= j < from ==> j in alloc
    ensures i < nregs && i !in alloc && forall j :: 0 <= j < i ==> j in alloc
    decreases nregs - from
  {
    if from < nregs && from !in alloc then from
    else
      AllBelow(alloc, from);
      LeastFree(alloc, nregs, from + 1)
  }

  lemma {:induction false} AllBelow(alloc: set<nat>, n: nat)
    requires forall j :: 0 <= j < n ==> j in alloc
    ensures n <= |alloc|
  {
    if n > 0 {
      AllBelow(alloc - {n - 1}, n - 1);
    }
  }

  lemma {:induction false} BoundedSize(alloc: set<nat>, n: nat)
    requires forall j :: j in alloc ==> j < n
    ensures |alloc| <= n
  {
    if n > 0 {
      BoundedSize(alloc - {n - 1}, n - 1);
      assert alloc <= (alloc - {n - 1}) + {n - 1};
    } else {
      assert alloc == {};
    }
  }

  /** The run lowest in memory. */
  lemma {:induction false} LowestExists(runs: set<RunId>) returns (r: RunId)
    requires runs != {}
    ensures r in runs && forall q :: q in runs ==> r <= q
  {
    var x :| x in runs;
    if runs == {x} {
      r := x;
    } else {
      var y := LowestExists(runs - {x});
      assert forall q :: q in runs ==> q == x || q in runs - {x};
      r := if x < y then x else y;
    }
  }

  // --------------------------------------------------------------------------
  // The invariant
  // --------------------------------------------------------------------------

  datatype Bin = Bin(runcur: Option<RunId>, runs: set<RunId>, info: map<RunId, Header>, pcs: map<Tid, Pc>)

  /** A run's counters describe its bitmap; no region from `nextind` on was ever handed out. */
  ghost predicate HeaderOk(nregs: nat, h: Header, ever: set<nat>) {
    && (forall i :: i in h.alloc ==> i in ever)
    && (forall i :: i in ever ==> i < h.nextind)
    && h.nextind <= nregs && h.nfree + |h.alloc| == nregs
  }

  ghost predicate HeadersOk(nregs: nat, b: Bin, ever: map<RunId, set<nat>>) {
    && ever.Keys == b.info.Keys
    && forall r {:trigger HeaderOk(nregs, b.info[r], ever[r])} :: r in b.info ==> HeaderOk(nregs, b.info[r], ever[r])
  }

  ghost predicate IsHeld(b: Bin, r: RunId) {
    exists t :: t in b.pcs && Holds(b.pcs[t], r)
  }

  /**
   * Where a run is.  A full run is in no structure, except that it may be current.  A partly
   * free run is current or in the tree, and not both.  A run without regions in use is in
   * the hands of a thread.
   */
  ghost predicate Placed(nregs: nat, b: Bin, r: RunId)
    requires r in b.info
  {
    var nfree := b.info[r].nfree;
    && (nfree == 0 ==> r !in b.runs && !IsHeld(b, r))
    && (0 < nfree < nregs ==> (b.runcur == Some(r) <==> r !in b.runs) && !IsHeld(b, r))
    && (nfree == nregs ==> b.runcur != Some(r) && r !in b.runs && IsHeld(b, r))
  }

  ghost predicate Known(b: Bin) {
    && (b.runcur.Some? ==> b.runcur.value in b.info)
    && (forall r :: r in b.runs ==> r in b.info)
    && (forall t, r :: t in b.pcs && Holds(b.pcs[t], r) ==> r in b.info)
    && (forall t, u, r :: t in b.pcs && u in b.pcs && Holds(b.pcs[t], r) && Holds(b.pcs[u], r) ==> t == u)
  }

  ghost predicate Inv(nregs: nat, b: Bin, ever: map<RunId, set<nat>>) {
    && nregs > 0 && HeadersOk(nregs, b, ever) && Known(b)
    && forall r {:trigger Placed(nregs, b, r)} :: r in b.info ==> Placed(nregs, b, r)
  }

  /** The current run is not above any run in the tree. */
  ghost predicate CurrentIsLowest(b: Bin) {
    b.runcur.Some? ==> forall r :: r in b.runs ==> b.runcur.value <= r
  }

  /** The invariant while the running thread has run `e` to itself. */
  ghost predicate InvBut(nregs: nat, b: Bin, ever: map<RunId, set<nat>>, e: RunId) {
    && nregs > 0 && HeadersOk(nregs, b, ever) && Known(b)
    && (forall r {:trigger Placed(nregs, b, r)} :: r in b.info && r != e ==> Placed(nregs, b, r))
    && e in b.info && b.runcur != Some(e) && e !in b.runs && !IsHeld(b, e)
  }

  function PcOf(b: Bin, t: Tid): Pc {
    if t in b.pcs then b.pcs[t] else Idle
  }

  // --------------------------------------------------------------------------
  // Regions of one run
  // --------------------------------------------------------------------------

  /** arena_run_reg_alloc. */
  function RegAlloc(h: Header, regind: nat): Header
    requires h.nfree > 0
  {
    Header(h.nfree - 1, if regind == h.nextind then h.nextind + 1 else h.nextind, h.alloc + {regind})
  }

  /** arena_run_reg_dalloc. */
  function RegDalloc(h: Header, regind: nat): Header {
    Header(h.nfree + 1, h.nextind, h.alloc - {regind})
  }

  /** The least free index never lies beyond the first region not yet used. */
  lemma RegAllocKeeps(nregs: nat, h: Header, ever: set<nat>, regind: nat)
    requires HeaderOk(nregs, h, ever) && h.nfree > 0
    requires regind < nregs && regind !in h.alloc && forall j :: 0 <= j < regind ==> j in h.alloc
    ensures regind <= h.nextind && HeaderOk(nregs, RegAlloc(h, regind), ever + {regind})
  {
    assert h.nextind < regind ==> h.nextind in h.alloc;
  }

  /** No region is in use exactly when all are free. */
  lemma AllocEmpty(nregs: nat, h: Header, ever: set<nat>, regind: nat)
    requires HeaderOk(nregs, h, ever) && regind in h.alloc
    ensures RegDalloc(h, regind).alloc == {} <==> h.nfree + 1 == nregs
  {
    assert |h.alloc - {regind}| == |h.alloc| - 1;
  }

  lemma RegDallocKeeps(nregs: nat, h: Header, ever: set<nat>, regind: nat)
    requires HeaderOk(nregs, h, ever) && regind in h.alloc
    ensures HeaderOk(nregs, RegDalloc(h, regind), ever)
  {
  }

  // --------------------------------------------------------------------------
  // Moving runs about
  // --------------------------------------------------------------------------

  /** Runs other than `e` keep their place when only `e` and the thread move. */
  lemma OthersPlaced(nregs: nat, b: Bin, b': Bin, e: RunId, r: RunId)
    requires r in b.info && r in b'.info && r != e && Placed(nregs, b, r) && b'.info[r] == b.info[r]
    requires b.info[r].nfree > 0 ==> (b.runcur == Some(r) <==> b'.runcur == Some(r))
    requires r in b.runs <==> r in b'.runs
    requires IsHeld(b, r) <==> IsHeld(b', r)
    ensures Placed(nregs, b', r)
  {
  }

  /** What a thread holds after it changed its state. */
  lemma HeldAfter(b: Bin, b': Bin, t: Tid, r: RunId)
    requires t in b'.pcs && b'.pcs == b.pcs[t := b'.pcs[t]]
    requires Holds(PcOf(b, t), r) <==> Holds(b'.pcs[t], r)
    ensures IsHeld(b, r) <==> IsHeld(b', r)
  {
    if IsHeld(b, r) {
      var u :| u in b.pcs && Holds(b.pcs[u], r);
      assert u in b'.pcs && Holds(b'.pcs[u], r);
    }
    if IsHeld(b', r) {
      var u :| u in b'.pcs && Holds(b'.pcs[u], r);
      assert u == t || (u in b.pcs && Holds(b.pcs[u], r));
    }
  }

  lemma NoChangeInHolding(b: Bin, b': Bin)
    requires b'.pcs == b.pcs
    ensures forall r :: IsHeld(b, r) <==> IsHeld(b', r)
  {
  }

  /** A run leaves the tree and is the running thread's. */
  lemma TakeFromTree(nregs: nat, b: Bin, ever: map<RunId, set<nat>>, r: RunId)
    requires Inv(nregs, b, ever) && r in b.runs
    ensures InvBut(nregs, b.(runs := b.runs - {r}), ever, r)
    ensures 0 < b.info[r].nfree < nregs
  {
    var b' := b.(runs := b.runs - {r});
    assert Placed(nregs, b, r);
    assert HeaderOk(nregs, b.info[r], ever[r]);
    NoChangeInHolding(b, b');
    forall q | q in b'.info && q != r ensures Placed(nregs, b', q) {
      OthersPlaced(nregs, b, b', r, q);
    }
    forall q | q in b'.info ensures HeaderOk(nregs, b'.info[q], ever[q]) {
      assert HeaderOk(nregs, b.info[q], ever[q]);
    }
  }

  /** The thread that held a run has the lock again. */
  lemma TakeFromThread(nregs: nat, b: Bin, ever: map<RunId, set<nat>>, t: Tid, r: RunId)
    requires Inv(nregs, b, ever) && Holds(PcOf(b, t), r)
    ensures InvBut(nregs, b.(pcs := b.pcs[t := Idle]), ever, r) && b.info[r].nfree == nregs
  {
    var b' := b.(pcs := b.pcs[t := Idle]);
    assert Placed(nregs, b, r) && HeaderOk(nregs, b.info[r], ever[r]);
    assert IsHeld(b, r);
    forall q | q in b'.info && q != r ensures Placed(nregs, b', q) {
      HeldAfter(b, b', t, q);
      OthersPlaced(nregs, b, b', r, q);
    }
    forall q | q in b'.info ensures HeaderOk(nregs, b'.info[q], ever[q]) {
      assert HeaderOk(nregs, b.info[q], ever[q]);
    }
  }

  /** A run with free regions and a region in use becomes current or enters the tree. */
  lemma PutBack(nregs: nat, b: Bin, b': Bin, ever: map<RunId, set<nat>>, e: RunId)
    requires InvBut(nregs, b, ever, e) && b'.info == b.info && b'.pcs == b.pcs && Known(b')
    requires Placed(nregs, b', e)
    requires forall r :: r in b.info && r != e ==> Placed(nregs, b', r)
    ensures Inv(nregs, b', ever)
  {
    forall q | q in b'.info ensures HeaderOk(nregs, b'.info[q], ever[q]) {
      assert HeaderOk(nregs, b.info[q], ever[q]);
    }
  }

  /** arena_bin_lower_run. */
  function Lower(b: Bin, e: RunId): Bin
    requires b.runcur.Some? ==> b.runcur.value in b.info
  {
    if b.runcur.Some? && e < b.runcur.value then
      b.(runcur := Some(e), runs := if b.info[b.runcur.value].nfree > 0 then b.runs + {b.runcur.value} else b.runs)
    else b.(runs := b.runs + {e})
  }

  lemma LowerKeeps(nregs: nat, b: Bin, ever: map<RunId, set<nat>>, e: RunId)
    requires InvBut(nregs, b, ever, e) && 0 < b.info[e].nfree < nregs
    ensures Inv(nregs, Lower(b, e), ever) && (CurrentIsLowest(b) ==> CurrentIsLowest(Lower(b, e)))
  {
    var b' := Lower(b, e);
    NoChangeInHolding(b, b');
    forall r | r in b.info && r != e ensures Placed(nregs, b', r) {
      assert Placed(nregs, b, r);
      assert HeaderOk(nregs, b.info[r], ever[r]);
    }
    assert Placed(nregs, b', e);
    PutBack(nregs, b, b', ever, e);
  }

  /** A run whose regions are all free is in the hands of a thread that will release it. */
  lemma ToThread(nregs: nat, b: Bin, ever: map<RunId, set<nat>>, t: Tid, e: RunId)
    requires InvBut(nregs, b, ever, e) && b.info[e].nfree == nregs && PcOf(b, t) == Idle
    ensures Inv(nregs, b.(pcs := b.pcs[t := Releasing(e)]), ever)
  {
    var b' := b.(pcs := b.pcs[t := Releasing(e)]);
    assert t in b'.pcs && Holds(b'.pcs[t], e);
    forall r | r in b.info && r != e ensures Placed(nregs, b', r) {
      assert Placed(nregs, b, r);
      HeldAfter(b, b', t, r);
      OthersPlaced(nregs, b, b', e, r);
    }
    forall q | q in b'.info ensures HeaderOk(nregs, b'.info[q], ever[q]) {
      assert HeaderOk(nregs, b.info[q], ever[q]);
    }
    assert Placed(nregs, b', e);
  }

  /** A region of the run is handed out, and the run is current. */
  function AllocFrom(b: Bin, r: RunId, regind: nat): Bin
    requires r in b.info && b.info[r].nfree > 0
  {
    b.(runcur := Some(r), info := b.info[r := RegAlloc(b.info[r], regind)])
  }

  ghost predicate IsLeastFree(nregs: nat, h: Header, regind: nat) {
    regind < nregs && regind !in h.alloc && forall j :: 0 <= j < regind ==> j in h.alloc
  }

  lemma AllocHeaders(nregs: nat, b: Bin, ever: map<RunId, set<nat>>, r: RunId, regind: nat)
    requires HeadersOk(nregs, b, ever) && r in b.info && b.info[r].nfree > 0 && IsLeastFree(nregs, b.info[r], regind)
    ensures HeadersOk(nregs, AllocFrom(b, r, regind), ever[r := ever[r] + {regind}])
  {
    var b', ever' := AllocFrom(b, r, regind), ever[r := ever[r] + {regind}];
    assert HeaderOk(nregs, b.info[r], ever[r]);
    RegAllocKeeps(nregs, b.info[r], ever[r], regind);
    forall q | q in b'.info ensures HeaderOk(nregs, b'.info[q], ever'[q]) {
      if q != r {
        assert HeaderOk(nregs, b.info[q], ever[q]);
      }
    }
  }

  /** The run taken becomes current and gives a region; the old current run was full. */
  lemma NewCurrentKeeps(nregs: nat, b: Bin, ever: map<RunId, set<nat>>, e: RunId, regind: nat)
    requires InvBut(nregs, b, ever, e) && (b.runcur.Some? ==> b.info[b.runcur.value].nfree == 0)
    requires b.info[e].nfree > 0 && IsLeastFree(nregs, b.info[e], regind)
    ensures Inv(nregs, AllocFrom(b, e, regind), ever[e := ever[e] + {regind}])
  {
    var b' := AllocFrom(b, e, regind);
    AllocHeaders(nregs, b, ever, e, regind);
    NoChangeInHolding(b, b');
    assert HeaderOk(nregs, b.info[e], ever[e]);
    forall r | r in b'.info ensures Placed(nregs, b', r) {
      if r != e {
        assert Placed(nregs, b, r);
        OthersPlaced(nregs, b, b', e, r);
      }
    }
  }

  /** The current run gives a region while the thread may have another run to itself. */
  lemma CurrentKeeps(nregs: nat, b: Bin, ever: map<RunId, set<nat>>, r: RunId, regind: nat, e: Option<RunId>)
    requires b.runcur == Some(r) && r in b.info && b.info[r].nfree > 0 && IsLeastFree(nregs, b.info[r], regind)
    requires if e.Some? then InvBut(nregs, b, ever, e.value) else Inv(nregs, b, ever)
    ensures var b', ever' := AllocFrom(b, r, regind), ever[r := ever[r] + {regind}];
      if e.Some? then InvBut(nregs, b', ever', e.value) else Inv(nregs, b', ever')
  {
    var b' := AllocFrom(b, r, regind);
    AllocHeaders(nregs, b, ever, r, regind);
    NoChangeInHolding(b, b');
    assert Placed(nregs, b, r) && HeaderOk(nregs, b.info[r], ever[r]);
    forall q | q in b'.info && e != Some(q) ensures Placed(nregs, b', q) {
      assert Placed(nregs, b, q);
      if q != r {
        OthersPlaced(nregs, b, b', r, q);
      }
    }
  }

  // --------------------------------------------------------------------------
  // Freeing a region
  // --------------------------------------------------------------------------

  function FreeIn(b: Bin, r: RunId, regind: nat): Bin
    requires r in b.info
  {
    b.(info := b.info[r := RegDalloc(b.info[r], regind)])
  }

  /** arena_dissociate_bin_run. */
  function Dissociate(b: Bin, r: RunId, nregs: nat): Bin {
    if b.runcur == Some(r) then b.(runcur := None)
    else if nregs != 1 then b.(runs := b.runs - {r})
    else b
  }

  lemma FreeHeaders(nregs: nat, b: Bin, ever: map<RunId, set<nat>>, r: RunId, regind: nat)
    requires HeadersOk(nregs, b, ever) && r in b.info && regind in b.info[r].alloc
    ensures HeadersOk(nregs, FreeIn(b, r, regind), ever)
  {
    assert HeaderOk(nregs, b.info[r], ever[r]);
    RegDallocKeeps(nregs, b.info[r], ever[r], regind);
    var b' := FreeIn(b, r, regind);
    forall q | q in b'.info ensures HeaderOk(nregs, b'.info[q], ever[q]) {
      if q != r {
        assert HeaderOk(nregs, b.info[q], ever[q]);
      }
    }
  }

  /** A run with a region in use is in no thread's hands. */
  lemma FreePlaces(nregs: nat, b: Bin, ever: map<RunId, set<nat>>, r: RunId, regind: nat)
    requires Inv(nregs, b, ever) && r in b.info && regind in b.info[r].alloc
    ensures b.info[r].nfree < nregs && !IsHeld(b, r)
    ensures forall q :: q in b.info && q != r ==> Placed(nregs, FreeIn(b, r, regind), q)
    ensures !IsHeld(FreeIn(b, r, regind), r)
  {
    var b' := FreeIn(b, r, regind);
    assert Placed(nregs, b, r) && HeaderOk(nregs, b.info[r], ever[r]);
    assert |b.info[r].alloc| > 0 by {
      assert b.info[r].alloc != {};
    }
    NoChangeInHolding(b, b');
    forall q | q in b.info && q != r ensures Placed(nregs, b', q) {
      assert Placed(nregs, b, q);
      OthersPlaced(nregs, b, b', r, q);
    }
  }

  /** The last region of a run was freed. */
  lemma FreeLast(nregs: nat, b: Bin, ever: map<RunId, set<nat>>, r: RunId, regind: nat)
    requires Inv(nregs, b, ever) && r in b.info && regind in b.info[r].alloc && b.info[r].nfree + 1 == nregs
    ensures InvBut(nregs, Dissociate(FreeIn(b, r, regind), r, nregs), ever, r)
    ensures CurrentIsLowest(b) ==> CurrentIsLowest(Dissociate(FreeIn(b, r, regind), r, nregs))
  {
    FreeHeaders(nregs, b, ever, r, regind);
    FreePlaces(nregs, b, ever, r, regind);
    var b1 := FreeIn(b, r, regind);
    var b' := Dissociate(b1, r, nregs);
    assert Placed(nregs, b, r);
    NoChangeInHolding(b1, b');
    forall q | q in b'.info && q != r ensures Placed(nregs, b', q) {
      assert Placed(nregs, b1, q);
    }
    forall q | q in b'.info ensures HeaderOk(nregs, b'.info[q], ever[q]) {
      assert HeaderOk(nregs, b1.info[q], ever[q]);
    }
  }

  /** A region of a full run that is not current was freed. */
  lemma FreeFirst(nregs: nat, b: Bin, ever: map<RunId, set<nat>>, r: RunId, regind: nat)
    requires Inv(nregs, b, ever) && r in b.info && regind in b.info[r].alloc && b.info[r].nfree == 0 && b.runcur != Some(r)
    ensures InvBut(nregs, FreeIn(b, r, regind), ever, r)
  {
    FreeHeaders(nregs, b, ever, r, regind);
    FreePlaces(nregs, b, ever, r, regind);
    assert Placed(nregs, b, r);
  }

  /** A region was freed and the run stays where it is. */
  lemma FreeMiddle(nregs: nat, b: Bin, ever: map<RunId, set<nat>>, r: RunId, regind: nat)
    requires Inv(nregs, b, ever) && r in b.info && regind in b.info[r].alloc && b.info[r].nfree + 1 < nregs
    requires b.info[r].nfree > 0 || b.runcur == Some(r)
    ensures Inv(nregs, FreeIn(b, r, regind), ever)
  {
    FreeHeaders(nregs, b, ever, r, regind);
    FreePlaces(nregs, b, ever, r, regind);
    assert Placed(nregs, b, r);
    assert Placed(nregs, FreeIn(b, r, regind), r);
  }

  // --------------------------------------------------------------------------
  // Runs come and go
  // --------------------------------------------------------------------------

  function Fresh(b: Bin, t: Tid, r: RunId, nregs: nat): Bin {
    b.(info := b.info[r := Header(nregs, 0, {})], pcs := b.pcs[t := GotRun(Some(r))])
  }

  lemma FreshKeeps(nregs: nat, b: Bin, ever: map<RunId, set<nat>>, t: Tid, r: RunId)
    requires Inv(nregs, b, ever) && PcOf(b, t) == NeedRun && r !in b.info
    ensures Inv(nregs, Fresh(b, t, r, nregs), ever[r := {}])
  {
    var b', ever' := Fresh(b, t, r, nregs), ever[r := {}];
    forall q | q in b'.info ensures HeaderOk(nregs, b'.info[q], ever'[q]) && Placed(nregs, b', q) {
      if q != r {
        assert HeaderOk(nregs, b.info[q], ever[q]) && Placed(nregs, b, q);
        HeldAfter(b, b', t, q);
        OthersPlaced(nregs, b, b', r, q);
      } else {
        assert t in b'.pcs && Holds(b'.pcs[t], r);
      }
    }
  }

  function Gone(b: Bin, t: Tid, r: RunId): Bin {
    b.(info := b.info - {r}, pcs := b.pcs[t := Idle])
  }

  lemma GoneKeeps(nregs: nat, b: Bin, ever: map<RunId, set<nat>>, t: Tid, r: RunId)
    requires Inv(nregs, b, ever) && PcOf(b, t) == Releasing(r)
    ensures r in b.info && b.info[r].alloc == {} && Inv(nregs, Gone(b, t, r), ever - {r})
  {
    var b', ever' := Gone(b, t, r), ever - {r};
    assert IsHeld(b, r);
    assert Placed(nregs, b, r) && HeaderOk(nregs, b.info[r], ever[r]);
    forall q | q in b'.info ensures HeaderOk(nregs, b'.info[q], ever'[q]) && Placed(nregs, b', q) {
      assert HeaderOk(nregs, b.info[q], ever[q]) && Placed(nregs, b, q);
      HeldAfter(b, b', t, q);
      OthersPlaced(nregs, b, b', r, q);
    }
  }

  /** A thread without a run changes its state to another without one. */
  lemma MoveThread(nregs: nat, b: Bin, ever: map<RunId, set<nat>>, t: Tid, pc: Pc)
    requires Inv(nregs, b, ever) && (forall r :: !Holds(PcOf(b, t), r)) && (forall r :: !Holds(pc, r))
    ensures Inv(nregs, b.(pcs := b.pcs[t := pc]), ever)
  {
    var b' := b.(pcs := b.pcs[t := pc]);
    forall q | q in b'.info ensures HeaderOk(nregs, b'.info[q], ever[q]) && Placed(nregs, b', q) {
      assert HeaderOk(nregs, b.info[q], ever[q]) && Placed(nregs, b, q);
      HeldAfter(b, b', t, q);
    }
  }

  /** A full current run may be forgotten. */
  lemma ForgetFull(nregs: nat, b: Bin, ever: map<RunId, set<nat>>)
    requires Inv(nregs, b, ever) && (b.runcur.Some? ==> b.info[b.runcur.value].nfree == 0)
    ensures Inv(nregs, b.(runcur := None), ever)
  {
    var b' := b.(runcur := None);
    NoChangeInHolding(b, b');
    forall q | q in b'.info ensures HeaderOk(nregs, b'.info[q], ever[q]) && Placed(nregs, b', q) {
      assert HeaderOk(nregs, b.info[q], ever[q]) && Placed(nregs, b, q);
    }
  }

  /**
   * What a thread that comes back from allocating a run meets: a current run that has free
   * regions, or no lower run in the tree than the one it brings.
   */
  ghost predicate NotLate(b: Bin, t: Tid)
    requires PcOf(b, t).GotRun?
  {
    var run := PcOf(b, t).run;
    || run.None?
    || CurrentHasRoom(b)
    || forall q :: q in b.runs ==> run.value <= q
  }

  datatype Event =
    | MallocStep(t: Tid)
    | ArenaStep(t: Tid, r: Option<RunId>)
    | ResumeStep(t: Tid)
    | FreeStep(t: Tid, x: Region)
    | ReleaseStep(t: Tid)

  predicate InUse(b: Bin, r: RunId, regind: nat) {
    r in b.info && regind in b.info[r].alloc
  }

  /** The current run has a free region. */
  predicate CurrentHasRoom(b: Bin) {
    b.runcur.Some? && b.runcur.value in b.info && b.info[b.runcur.value].nfree > 0
  }

  /** Exactly one region, which was free, is in use now. */
  ghost predicate HandedOut(info: map<RunId, Header>, info': map<RunId, Header>, x: Region) {
    && x.r in info && x.r in info' && x.regind !in info[x.r].alloc && info'[x.r].alloc == info[x.r].alloc + {x.regind}
    && forall q :: q != x.r ==> (q in info <==> q in info') && (q in info ==> info'[q] == info[q])
  }

  // --------------------------------------------------------------------------
  // The operations
  // --------------------------------------------------------------------------

  /** The least free region of run `r`, which is current now. */
  ghost predicate Hands(nregs: nat, b: Bin, b': Bin, r: RunId, ret: Option<Region>) {
    && r in b.info && b.info[r].nfree > 0 && ret.Some? && ret.value.r == r
    && IsLeastFree(nregs, b.info[r], ret.value.regind) && b' == AllocFrom(b, r, ret.value.regind)
  }

  ghost predicate IsLowest(runs: set<RunId>, r: RunId) {
    r in runs && forall q :: q in runs ==> r <= q
  }

  /** The run in hand is not needed: it is to be released, or shared. */
  function Aside(nregs: nat, b: Bin, t: Tid, r: RunId): Bin {
    if r in b.info && b.info[r].nfree == nregs then b.(pcs := b.pcs[t := Releasing(r)])
    else if b.runcur.Some? ==> b.runcur.value in b.info then Lower(b, r)
    else b
  }

  /** A region comes from the current run if it can, and else from run `r`. */
  ghost predicate TakesOr(nregs: nat, b: Bin, b': Bin, t: Tid, r: RunId, ret: Option<Region>) {
    if CurrentHasRoom(b) then exists b1 :: Hands(nregs, b, b1, b.runcur.value, ret) && b' == Aside(nregs, b1, t, r)
    else Hands(nregs, b, b', r, ret)
  }

  ghost predicate MallocGoes(nregs: nat, b: Bin, b': Bin, t: Tid, ret: Option<Region>) {
    if CurrentHasRoom(b) then Hands(nregs, b, b', b.runcur.value, ret)
    else if b.runs == {} then ret == None && b' == b.(runcur := None, pcs := b.pcs[t := NeedRun])
    else exists r :: IsLowest(b.runs, r) && Hands(nregs, b.(runcur := None, runs := b.runs - {r}), b', r, ret)
  }

  ghost predicate ResumeGoes(nregs: nat, b: Bin, b': Bin, t: Tid, ret: Option<Region>)
    requires PcOf(b, t).GotRun?
  {
    var run, b1 := PcOf(b, t).run, b.(pcs := b.pcs[t := Idle]);
    if run.Some? then TakesOr(nregs, b1, b', t, run.value, ret)
    else if b.runs != {} then exists r :: IsLowest(b.runs, r) && TakesOr(nregs, b1.(runs := b.runs - {r}), b', t, r, ret)
    else if CurrentHasRoom(b) then Hands(nregs, b1, b', b.runcur.value, ret)
    else ret == None && b' == b1
  }

  ghost predicate FreeGoes(nregs: nat, b: Bin, b': Bin, t: Tid, x: Region)
    requires x.r in b.info && (b.runcur.Some? ==> b.runcur.value in b.info)
  {
    var n, b1 := b.info[x.r].nfree + 1, FreeIn(b, x.r, x.regind);
    if n == nregs then b' == Dissociate(b1, x.r, nregs).(pcs := b.pcs[t := Releasing(x.r)])
    else if n == 1 && b.runcur != Some(x.r) then b' == Lower(b1, x.r)
    else b' == b1
  }

  /** The event can happen. */
  predicate Enabled(b: Bin, e: Event) {
    match e
    case MallocStep(t) => PcOf(b, t).Idle?
    case ArenaStep(t, r) => PcOf(b, t).NeedRun? && (r.None? || r.value !in b.info)
    case ResumeStep(t) => PcOf(b, t).GotRun?
    case FreeStep(t, x) => PcOf(b, t).Idle? && x.r in b.info && x.regind in b.info[x.r].alloc
    case ReleaseStep(t) => PcOf(b, t).Releasing?
  }

  /** The step from `b` to `b'`: the event's effect if it can happen, and else none. */
  ghost predicate Goes(nregs: nat, b: Bin, b': Bin, e: Event) {
    if !Enabled(b, e) then b' == b else
    match e
    case MallocStep(t) => exists ret :: MallocGoes(nregs, b, b', t, ret)
    case ArenaStep(t, r) => b' == if r.Some? then Fresh(b, t, r.value, nregs) else b.(pcs := b.pcs[t := GotRun(None)])
    case ResumeStep(t) => exists ret :: ResumeGoes(nregs, b, b', t, ret)
    case FreeStep(t, x) => (b.runcur.Some? ==> b.runcur.value in b.info) && FreeGoes(nregs, b, b', t, x)
    case ReleaseStep(t) => b' == Gone(b, t, PcOf(b, t).r)
  }

  ghost function Law(nregs: nat): (Bin, Bin, Event) -> bool {
    (b, b', e) => Goes(nregs, b, b', e)
  }

  class SmallBin {
    const nregs: nat
    var b: Bin
    ghost var ever: map<RunId, set<nat>>

    ghost predicate Valid()
      reads this
    {
      Inv(nregs, b, ever)
    }

    constructor (nregs: nat)
      requires nregs > 0
      ensures Valid() && this.nregs == nregs && b == Bin(None, {}, map[], map[]) && ever == map[]
    {
      this.nregs := nregs;
      b := Bin(None, {}, map[], map[]);
      ever := map[];
    }

    /** A run with free regions is exactly one of: current, in the tree, held by one thread. */
    lemma OneOwner(r: RunId, t: Tid, u: Tid)
      requires Valid() && r in b.info && b.info[r].nfree > 0
      ensures b.runcur == Some(r) ==> r !in b.runs && !IsHeld(b, r)
      ensures r in b.runs ==> b.runcur != Some(r) && !IsHeld(b, r)
      ensures b.runcur == Some(r) || r in b.runs || IsHeld(b, r)
      ensures Holds(PcOf(b, t), r) && Holds(PcOf(b, u), r) ==> t == u
    {
      assert Placed(nregs, b, r) && HeaderOk(nregs, b.info[r], ever[r]);
    }

    /** Take a region from the run, which becomes or stays current. */
    method TakeRegion(r: RunId, ghost e: Option<RunId>) returns (ret: Region)
      requires r in b.info && b.info[r].nfree > 0
      requires e == Some(r) ==> InvBut(nregs, b, ever, r) && (b.runcur.Some? ==> b.info[b.runcur.value].nfree == 0)
      requires e != Some(r) ==> b.runcur == Some(r) && if e.Some? then InvBut(nregs, b, ever, e.value) else Valid()
      modifies this
      ensures ret.r == r && IsLeastFree(nregs, old(b.info)[r], ret.regind) && b == AllocFrom(old(b), r, ret.regind)
      ensures if e.Some? && e != Some(r) then InvBut(nregs, b, ever, e.value) else Valid()
      ensures r in old(ever) && ever == old(ever)[r := old(ever)[r] + {ret.regind}]
    {
      assert HeaderOk(nregs, b.info[r], ever[r]);
      var regind := LeastFree(b.info[r].alloc, nregs, 0);
      if e == Some(r) {
        NewCurrentKeeps(nregs, b, ever, r, regind);
      } else {
        CurrentKeeps(nregs, b, ever, r, regind, e);
      }
      b := AllocFrom(b, r, regind);
      ever := ever[r := ever[r] + {regind}];
      ret := Region(r, regind);
    }

    /** arena_bin_nonfull_run_tryget: the lowest run of the tree. */
    method TryGet() returns (r: Option<RunId>)
      requires Valid()
      modifies this`b
      ensures r.None? ==> b == old(b) && b.runs == {}
      ensures r.Some? ==> IsLowest(old(b).runs, r.value) && b == old(b).(runs := old(b).runs - {r.value})
      ensures r.Some? ==> InvBut(nregs, b, ever, r.value) && 0 < b.info[r.value].nfree < nregs
      ensures r.Some? ==> forall q :: q in b.runs ==> r.value < q
    {
      if b.runs == {} {
        return None;
      }
      ghost var lowest := LowestExists(b.runs);
      var x :| x in b.runs && forall q :: q in b.runs ==> x <= q;
      TakeFromTree(nregs, b, ever, x);
      b := b.(runs := b.runs - {x});
      r := Some(x);
    }

    /**
     * arena_malloc_small up to where the bin lock is released: either a region, or the thread
     * goes on to allocate a run.
     */
    method Malloc(t: Tid) returns (ret: Option<Region>)
      requires Valid() && PcOf(b, t) == Idle
      modifies this
      ensures Valid() && (old(CurrentIsLowest(b)) ==> CurrentIsLowest(b))
      ensures ret.None? ==> ever == old(ever)
      ensures ret.Some? ==> ret.value.r in old(ever) && ever == old(ever)[ret.value.r := old(ever)[ret.value.r] + {ret.value.regind}]
      ensures ret.None? <==> !old(CurrentHasRoom(b)) && old(b).runs == {}
      ensures ret.None? ==> b == old(b).(runcur := None, pcs := old(b).pcs[t := NeedRun])
      ensures MallocGoes(nregs, old(b), b, t, ret)
      ensures ret.Some? ==> HandedOut(old(b).info, b.info, ret.value) && b.pcs == old(b).pcs
    {
      if b.runcur.Some? && b.info[b.runcur.value].nfree > 0 {
        var x := TakeRegion(b.runcur.value, None);
        return Some(x);
      }
      ForgetFull(nregs, b, ever);
      b := b.(runcur := None);
      var r := TryGet();
      if r.None? {
        MoveThread(nregs, b, ever, t, NeedRun);
        b := b.(pcs := b.pcs[t := NeedRun]);
        return None;
      }
      var x := TakeRegion(r.value, r);
      ret := Some(x);
    }

    /** The arena has answered: a fresh run, all regions free, or none. */
    method ArenaAnswers(t: Tid, r: Option<RunId>)
      requires Valid() && PcOf(b, t) == NeedRun && (r.Some? ==> r.value !in b.info)
      modifies this
      ensures Valid()
      ensures b == if r.Some? then Fresh(old(b), t, r.value, nregs) else old(b).(pcs := old(b).pcs[t := GotRun(None)])
      ensures ever == if r.Some? then old(ever)[r.value := {}] else old(ever)
    {
      if r.None? {
        MoveThread(nregs, b, ever, t, GotRun(None));
        b := b.(pcs := b.pcs[t := GotRun(None)]);
      } else {
        FreshKeeps(nregs, b, ever, t, r.value);
        b := Fresh(b, t, r.value, nregs);
        ever := ever[r.value := {}];
      }
    }

    /** arena_bin_malloc_hard after the bin lock was taken again, with the run in hand if any. */
    method Resume(t: Tid) returns (ret: Option<Region>)
      requires Valid() && PcOf(b, t).GotRun?
      modifies this
      ensures Valid() && (PcOf(b, t) == Idle || PcOf(b, t).Releasing?)
      ensures ret.None? <==> PcOf(old(b), t).run.None? && !old(CurrentHasRoom(b)) && old(b).runs == {}
      ensures ret.None? ==> b.info == old(b).info && PcOf(b, t) == Idle
      ensures ret.Some? ==> HandedOut(old(b).info, b.info, ret.value)
      ensures forall u :: u != t ==> PcOf(b, u) == PcOf(old(b), u)
      ensures ret.None? ==> ever == old(ever)
      ensures ret.Some? ==> ret.value.r in old(ever) && ever == old(ever)[ret.value.r := old(ever)[ret.value.r] + {ret.value.regind}]
      ensures ResumeGoes(nregs, old(b), b, t, ret)
      ensures old(CurrentIsLowest(b)) ==> (CurrentIsLowest(b) <==> NotLate(old(b), t))
    {
      var run := TakeBack(t);
      if run.Some? {
        var x := TakeOr(t, run.value);
        ret := Some(x);
      } else if b.runcur.Some? && b.info[b.runcur.value].nfree > 0 {
        var x := TakeRegion(b.runcur.value, None);
        ret := Some(x);
      } else {
        ret := None;
      }
    }

    /** A region of the current run if it has one, and then run `r` is set aside; else one of run `r`. */
    method TakeOr(t: Tid, r: RunId) returns (x: Region)
      requires InvBut(nregs, b, ever, r) && PcOf(b, t) == Idle && b.info[r].nfree > 0
      modifies this
      ensures Valid() && TakesOr(nregs, old(b), b, t, r, Some(x)) && HandedOut(old(b).info, b.info, x)
      ensures PcOf(b, t) == Idle || PcOf(b, t).Releasing?
      ensures forall u :: u != t ==> PcOf(b, u) == PcOf(old(b), u)
      ensures x.r in old(ever) && ever == old(ever)[x.r := old(ever)[x.r] + {x.regind}]
      ensures old(CurrentIsLowest(b)) && old(CurrentHasRoom(b)) ==> CurrentIsLowest(b)
    {
      if b.runcur.Some? && b.info[b.runcur.value].nfree > 0 {
        x := TakeRegion(b.runcur.value, Some(r));
        SetAside(t, r);
      } else {
        x := TakeRegion(r, Some(r));
      }
    }

    /** The thread has the lock again, with the run it brings or else the lowest of the tree. */
    method TakeBack(t: Tid) returns (run: Option<RunId>)
      requires Valid() && PcOf(b, t).GotRun?
      modifies this`b
      ensures b == old(b).(pcs := b.pcs, runs := b.runs) && b.pcs == old(b).pcs[t := Idle]
      ensures if run.Some? then InvBut(nregs, b, ever, run.value) && b.info[run.value].nfree > 0 else Valid() && b.runs == {}
      ensures PcOf(old(b), t).run.Some? ==>
        run == PcOf(old(b), t).run && b.runs == old(b).runs && b.info[run.value].nfree == nregs
      ensures PcOf(old(b), t).run.None? && run.Some? ==>
        && IsLowest(old(b).runs, run.value) && b.runs == old(b).runs - {run.value} && b.info[run.value].nfree < nregs
        && forall q :: q in b.runs ==> run.value < q
      ensures PcOf(old(b), t).run.None? && run.None? ==> b.runs == old(b).runs
    {
      run := b.pcs[t].run;
      if run.Some? {
        TakeFromThread(nregs, b, ever, t, run.value);
        b := b.(pcs := b.pcs[t := Idle]);
      } else {
        MoveThread(nregs, b, ever, t, Idle);
        b := b.(pcs := b.pcs[t := Idle]);
        run := TryGet();
      }
    }

    /** Another thread has set up a current run in the meantime: the run in hand is not needed. */
    method SetAside(t: Tid, r: RunId)
      requires InvBut(nregs, b, ever, r) && PcOf(b, t) == Idle && b.info[r].nfree > 0
      modifies this`b
      ensures Valid() && b == Aside(nregs, old(b), t, r) && b.info == old(b).info && (PcOf(b, t) == Idle || PcOf(b, t) == Releasing(r))
      ensures forall u :: u != t ==> PcOf(b, u) == PcOf(old(b), u)
      ensures old(CurrentIsLowest(b)) ==> CurrentIsLowest(b)
    {
      assert HeaderOk(nregs, b.info[r], ever[r]);
      if b.info[r].nfree == nregs {
        ToThread(nregs, b, ever, t, r);
        b := b.(pcs := b.pcs[t := Releasing(r)]);
      } else {
        LowerKeeps(nregs, b, ever, r);
        b := Lower(b, r);
      }
    }

    /** arena_dalloc_bin_locked. */
    method Free(t: Tid, x: Region)
      requires Valid() && PcOf(b, t) == Idle && x.r in b.info && x.regind in b.info[x.r].alloc
      modifies this`b
      ensures Valid() && HandedOut(b.info, old(b).info, x) && (old(CurrentIsLowest(b)) ==> CurrentIsLowest(b))
      ensures (old(b).runcur.Some? ==> old(b).runcur.value in old(b).info) && FreeGoes(nregs, old(b), b, t, x)
      ensures PcOf(b, t) == if b.info[x.r].alloc == {} then Releasing(x.r) else Idle
      ensures forall u :: u != t ==> PcOf(b, u) == PcOf(old(b), u)
    {
      var n := b.info[x.r].nfree + 1;
      FreePlaces(nregs, b, ever, x.r, x.regind);
      assert HeaderOk(nregs, b.info[x.r], ever[x.r]) && Placed(nregs, b, x.r);
      AllocEmpty(nregs, b.info[x.r], ever[x.r], x.regind);
      if n == nregs {
        FreeLastOne(t, x);
      } else if n == 1 && b.runcur != Some(x.r) {
        FreeIntoFull(x);
      } else {
        FreeMiddle(nregs, b, ever, x.r, x.regind);
        b := FreeIn(b, x.r, x.regind);
      }
    }

    /** No region of the run is in use any more: it is in the thread's hand. */
    method FreeLastOne(t: Tid, x: Region)
      requires Valid() && PcOf(b, t) == Idle && x.r in b.info && x.regind in b.info[x.r].alloc && b.info[x.r].nfree + 1 == nregs
      modifies this`b
      ensures Valid() && b.info == old(b).info[x.r := RegDalloc(old(b).info[x.r], x.regind)]
      ensures b == Dissociate(FreeIn(old(b), x.r, x.regind), x.r, nregs).(pcs := old(b).pcs[t := Releasing(x.r)])
      ensures old(CurrentIsLowest(b)) ==> CurrentIsLowest(b)
    {
      FreeLast(nregs, b, ever, x.r, x.regind);
      b := Dissociate(FreeIn(b, x.r, x.regind), x.r, nregs);
      ToThread(nregs, b, ever, t, x.r);
      b := b.(pcs := b.pcs[t := Releasing(x.r)]);
    }

    /** The freed region is the only free one of a run that is not current. */
    method FreeIntoFull(x: Region)
      requires Valid() && x.r in b.info && x.regind in b.info[x.r].alloc && b.info[x.r].nfree == 0 && nregs > 1 && b.runcur != Some(x.r)
      modifies this`b
      ensures Valid() && b.info == old(b).info[x.r := RegDalloc(old(b).info[x.r], x.regind)] && b.pcs == old(b).pcs
      ensures (old(b).runcur.Some? ==> old(b).runcur.value in old(b).info) && b == Lower(FreeIn(old(b), x.r, x.regind), x.r)
      ensures old(CurrentIsLowest(b)) ==> CurrentIsLowest(b)
    {
      FreeFirst(nregs, b, ever, x.r, x.regind);
      b := FreeIn(b, x.r, x.regind);
      LowerKeeps(nregs, b, ever, x.r);
      b := Lower(b, x.r);
    }

    /** arena_dalloc_bin_run under the arena lock: the run is not this bin's any more. */
    method Released(t: Tid) returns (nextind: nat)
      requires Valid() && PcOf(b, t).Releasing?
      modifies this
      ensures Valid() && PcOf(b, t) == Idle && (old(CurrentIsLowest(b)) ==> CurrentIsLowest(b))
      ensures var r := PcOf(old(b), t).r; r in old(b).info && old(b).info[r].alloc == {} && b.info == old(b).info - {r}
      ensures nextind <= nregs && forall i :: i in old(ever)[PcOf(old(b), t).r] ==> i < nextind
      ensures b == Gone(old(b), t, PcOf(old(b), t).r) && ever == old(ever) - {PcOf(old(b), t).r}
    {
      var r := b.pcs[t].r;
      GoneKeeps(nregs, b, ever, t, r);
      assert HeaderOk(nregs, b.info[r], ever[r]);
      nextind := b.info[r].nextind;
      b := Gone(b, t, r);
      ever := ever - {r};
    }

    /** One step of a thread, if it is where it can take it. */
    method Step(e: Event)
      requires Valid()
      modifies this
      ensures Valid() && Goes(nregs, old(b), b, e)
      ensures forall r, i :: InUse(old(b), r, i) && e != FreeStep(e.t, Region(r, i)) ==> InUse(b, r, i)
    {
      if Enabled(b, e) {
        match e {
          case MallocStep(t) => var _ := Malloc(t);
          case ArenaStep(t, r) => ArenaAnswers(t, r);
          case ResumeStep(t) => var _ := Resume(t);
          case FreeStep(t, x) => Free(t, x);
          case ReleaseStep(t) => var _ := Released(t);
        }
      }
    }

    /**
     * Any schedule: no partly free run is lost or owned twice, the lock holders do what they do
     * one after the other, and regions stay in use until freed.
     */
    method Run(script: seq<Event>) returns (ghost trace: seq<Bin>)
      requires Valid()
      modifies this
      ensures Valid() && Leads(Law(nregs), trace, script, |script|, old(b), b)
      ensures forall r, i :: InUse(old(b), r, i) && (forall e :: e in script ==> e != FreeStep(e.t, Region(r, i))) ==> InUse(b, r, i)
    {
      trace := [b];
      for k := 0 to |script|
        invariant Valid() && Leads(Law(nregs), trace, script, k, old(b), b)
        invariant forall r, i :: InUse(old(b), r, i) && (forall e :: e in script ==> e != FreeStep(e.t, Region(r, i))) ==> InUse(b, r, i)
      {
        assert script[k] in script;
        Step(script[k]);
        TraceGrows(Law(nregs), trace, b, script);
        trace := trace + [b];
      }
    }
  }

  /**
   * The comment on arena_bin_lower_run says that the current run is the lowest one with free
   * regions.  Here run 10 fills up, thread 1 leaves to allocate run 20, run 10 gets a region back
   * and enters the tree, and thread 1 makes run 20 current.
   */
  method LateRunIsNotLowest() returns (bin: SmallBin)
    ensures bin.Valid() && bin.b.runcur == Some(20) && 10 in bin.b.runs && !CurrentIsLowest(bin.b)
  {
    bin := new SmallBin(2);
    FillRun(bin);
    var none := bin.Malloc(1);
    bin.ArenaAnswers(1, Some(20));
    bin.Free(2, Region(10, 0));
    assert bin.b.runcur == None && bin.b.runs == {10} && PcOf(bin.b, 1) == GotRun(Some(20));
    var late := bin.Resume(1);
  }

  /** Thread 2 allocates run 10 and takes both its regions. */
  method FillRun(bin: SmallBin)
    requires bin.Valid() && bin.nregs == 2 && bin.b == Bin(None, {}, map[], map[])
    modifies bin
    ensures bin.Valid() && bin.b.runcur == Some(10) && bin.b.runs == {} && bin.b.info.Keys == {10}
    ensures bin.b.info[10].nfree == 0 && bin.b.info[10].alloc == {0, 1} && PcOf(bin.b, 1) == Idle && PcOf(bin.b, 2) == Idle
  {
    var a := bin.Malloc(2);
    bin.ArenaAnswers(2, Some(10));
    a := bin.Resume(2);
    a := bin.Malloc(2);
  }
}
