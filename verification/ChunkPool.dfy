/**
 * The chunk recycler: address space that was given back is recorded in two trees and
 * handed out again.  A method is what one critical section of `chunks_mtx` does, or an
 * answer of the system; any interleaving of them may occur.
 */
module ChunkPool {
  import opened Basics
  import opened Extents
  import opened Align

  predicate Fits(e: Ext, c: nat)
    requires c > 0
  {
    e.addr > 0 && e.size > 0 && Multiple(e.addr, c) && Multiple(e.size, c) && e.End() <= TWO_64
  }

  ghost predicate AllFit(v: Keys, c: nat)
    requires c > 0
  {
    forall n :: n in v ==> Fits(v[n], c)
  }

  ghost predicate RangesApart(r: Ext, q: Ext) {
    r != q ==> Apart(r, q)
  }

  /** The ranges in use are pairwise disjoint and touch no recorded extent. */
  ghost predicate Disjoint(v: Keys, owned: set<Ext>, c: nat)
    requires c > 0
  {
    && (forall r :: r in owned ==> Fits(r, c) && Outside(v, r))
    && (forall r, q {:trigger RangesApart(r, q)} :: r in owned && q in owned ==> RangesApart(r, q))
  }

  // --------------------------------------------------------------------------
  // Handing over ranges
  // --------------------------------------------------------------------------

  /** Recording less endangers no range in use. */
  lemma StillDisjoint(v: Keys, v': Keys, owned: set<Ext>, c: nat)
    requires c > 0 && Spread(v) && Spread(v') && Disjoint(v, owned, c)
    requires forall a :: Covers(v', a) ==> Covers(v, a)
    ensures Disjoint(v', owned, c)
  {
    forall r | r in owned ensures Outside(v', r) {
      OutsideIsUncovered(v, r);
      OutsideIsUncovered(v', r);
    }
  }

  lemma TakeOver(v: Keys, owned: set<Ext>, r: Ext, c: nat)
    requires c > 0 && Disjoint(v, owned, c) && Fits(r, c)
    requires Outside(v, r) && forall q :: q in owned ==> Apart(q, r)
    ensures Disjoint(v, owned + {r}, c)
  {
    forall p, q | p in owned + {r} && q in owned + {r} ensures RangesApart(p, q) {
      if p in owned && q in owned {
        assert RangesApart(p, q);
      }
    }
  }

  lemma GiveUp(v: Keys, owned: set<Ext>, r: Ext, c: nat)
    requires c > 0 && Disjoint(v, owned, c)
    ensures Disjoint(v, owned - {r}, c)
  {
    forall p, q | p in owned - {r} && q in owned - {r} ensures RangesApart(p, q) {
      assert RangesApart(p, q);
    }
  }

  /** A range in use becomes part of what is recorded. */
  lemma HandBack(v: Keys, v': Keys, owned: set<Ext>, r: Ext, c: nat)
    requires c > 0 && Spread(v) && Spread(v') && Disjoint(v, owned, c) && r in owned
    requires forall a :: Covers(v', a) ==> Covers(v, a) || r.Has(a)
    ensures Disjoint(v', owned - {r}, c)
  {
    forall q | q in owned - {r} ensures Outside(v', q) {
      assert RangesApart(q, r);
      OutsideIsUncovered(v, q);
      OutsideIsUncovered(v', q);
    }
    GiveUp(v, owned, r, c);
  }

  // --------------------------------------------------------------------------
  // Cutting a block out of an extent
  // --------------------------------------------------------------------------

  function Ranges(r: Option<Ext>): set<Ext> {
    if r.None? then {} else {r.value}
  }

  ghost predicate In(r: Option<Ext>, a: int) {
    r.Some? && r.value.Has(a)
  }

  /** Node `n` keeps what remains before the block, or else what remains behind it. */
  ghost function Cut(v: Keys, n: Node, lead: nat, size: nat): Keys
    requires n in v && lead + size <= v[n].size
  {
    if lead > 0 then v[n := Ext(v[n].addr, lead)]
    else if size < v[n].size then v[n := Ext(v[n].addr + size, v[n].size - size)]
    else v - {n}
  }

  /** What remains behind the block when there is something before it, too. */
  function Pending(e: Ext, lead: nat, size: nat): Option<Ext>
    requires lead + size <= e.size
  {
    if lead > 0 && lead + size < e.size then Some(Ext(e.addr + lead + size, e.size - lead - size)) else None
  }

  lemma CutSpread(v: Keys, n: Node, lead: nat, size: nat)
    requires Spread(v) && n in v && size > 0 && lead + size <= v[n].size
    ensures Spread(Cut(v, n, lead, size))
    ensures lead > 0 ==> Outside(v - {n}, Ext(v[n].addr, lead))
    ensures size < v[n].size ==> Outside(v - {n}, Ext(v[n].addr + size, v[n].size - size))
  {
    SpreadWithout(v, n);
    forall m | m in v - {n} ensures Apart(v[m], v[n]) {
      TwoNodes(v, m, n);
    }
    if lead > 0 {
      SpreadWith(v, n, Ext(v[n].addr, lead));
    } else if size < v[n].size {
      SpreadWith(v, n, Ext(v[n].addr + size, v[n].size - size));
    }
  }

  lemma CutInSteps(v: Keys, n: Node, lead: nat, size: nat)
    requires n in v && lead + size <= v[n].size
    ensures lead > 0 ==> (v - {n})[n := Ext(v[n].addr, lead)] == Cut(v, n, lead, size)
    ensures lead == 0 && size < v[n].size ==> (v - {n})[n := Ext(v[n].addr + size, v[n].size - size)] == Cut(v, n, lead, size)
  {
  }

  lemma CutCovers(v: Keys, n: Node, lead: nat, size: nat, a: int)
    requires Spread(v) && n in v && size > 0 && lead + size <= v[n].size
    ensures Covers(Cut(v, n, lead, size), a) <==>
              Covers(v, a) && !Ext(v[n].addr + lead, size).Has(a) && !In(Pending(v[n], lead, size), a)
  {
    CoversWithout(v, n, a);
    if v[n].Has(a) {
      assert Covers(v, a);
    }
    if lead > 0 {
      CoversWith(v, n, Ext(v[n].addr, lead), a);
    } else if size < v[n].size {
      CoversWith(v, n, Ext(v[n].addr + size, v[n].size - size), a);
    }
  }

  lemma CutCoalesced(v: Keys, n: Node, lead: nat, size: nat)
    requires Spread(v) && n in v && size > 0 && lead + size <= v[n].size && Coalesced(v)
    ensures Coalesced(Cut(v, n, lead, size))
    ensures var r := Pending(v[n], lead, size); r.Some? ==> Isolated(Cut(v, n, lead, size), r.value)
  {
    var v' := Cut(v, n, lead, size);
    var r := Pending(v[n], lead, size);
    forall p | p in v' ensures r.Some? ==> v'[p].End() != r.value.addr && r.value.End() != v'[p].addr {
      TwoNodes(v, p, n);
    }
    forall p, q | p in v' && q in v' ensures v'[p].End() != v'[q].addr {
      assert p in v && q in v && v[p].End() != v[q].addr;
      TwoNodes(v, p, n);
      TwoNodes(v, q, n);
    }
  }

  /** The pieces an extent is cut into: all are chunk-aligned. */
  lemma PiecesFit(e: Ext, lead: nat, size: nat, c: nat)
    requires c > 0 && Fits(e, c) && Multiple(lead, c) && Multiple(size, c) && size > 0 && lead + size <= e.size
    ensures Fits(Ext(e.addr + lead, size), c)
    ensures lead > 0 ==> Fits(Ext(e.addr, lead), c)
    ensures lead + size < e.size ==> Fits(Ext(e.addr + lead + size, e.size - lead - size), c)
  {
    MultipleSum(e.addr, lead, c);
    MultipleSum(e.addr + lead, size, c);
    MultipleSum(e.size, lead, c);
    MultipleSum(e.size - lead, size, c);
  }

  /** The block and the pending range are now in use, and disjoint from all else. */
  lemma CutDisjoint(v: Keys, n: Node, lead: nat, size: nat, owned: set<Ext>, c: nat)
    requires c > 0 && Spread(v) && AllFit(v, c) && Disjoint(v, owned, c) && n in v
    requires size > 0 && lead + size <= v[n].size && Multiple(lead, c) && Multiple(size, c)
    ensures AllFit(Cut(v, n, lead, size), c)
    ensures Disjoint(Cut(v, n, lead, size), owned + {Ext(v[n].addr + lead, size)} + Ranges(Pending(v[n], lead, size)), c)
    ensures Ranges(Pending(v[n], lead, size)) !! owned + {Ext(v[n].addr + lead, size)} && Ext(v[n].addr + lead, size) !in owned
  {
    var e, v' := v[n], Cut(v, n, lead, size);
    var block, r := Ext(e.addr + lead, size), Pending(e, lead, size);
    PiecesFit(e, lead, size, c);
    CutSpread(v, n, lead, size);
    forall a ensures Covers(v', a) <==> Covers(v, a) && !block.Has(a) && !In(r, a) {
      CutCovers(v, n, lead, size, a);
    }
    StillDisjoint(v, v', owned, c);
    forall q | q in owned ensures Apart(q, block) && (r.Some? ==> Apart(q, r.value)) {
      assert Apart(v[n], q);
    }
    OutsideIsUncovered(v', block);
    TakeOver(v', owned, block, c);
    if r.Some? {
      OutsideIsUncovered(v', r.value);
      TakeOver(v', owned + {block}, r.value, c);
    }
  }

  /**
   * From `v` to `v'` exactly the block and the pending range were taken out, from the least
   * extent in size and address order that is large enough for any position of the block.
   */
  ghost predicate Taken(v: Keys, v': Keys, size: nat, alignment: nat, c: nat, ret: nat, pending: Option<Ext>)
    requires alignment > 0
  {
    && Multiple(ret, alignment) && v'.Keys <= v.Keys
    && (forall a :: Covers(v', a) <==> Covers(v, a) && !Ext(ret, size).Has(a) && !In(pending, a))
    && (forall a :: Ext(ret, size).Has(a) || In(pending, a) ==> Covers(v, a))
    && (exists n :: FromLeast(v, n, size, alignment, c, ret) && pending == Pending(v[n], ret - v[n].addr, size))
    && (pending.Some? ==> pending.value.addr == ret + size)
    && (Coalesced(v) ==> Coalesced(v') && (pending.Some? ==> Isolated(v', pending.value)))
  }

  ghost predicate FromLeast(v: Keys, n: Node, size: nat, alignment: nat, c: nat, ret: nat)
    requires alignment > 0
  {
    && IsLeast(v, n, size + alignment - c)
    && v[n].addr <= ret == AlignUp(v[n].addr, alignment) && ret + size <= v[n].End()
  }

  /** The least extent, in size and address order, of at least this size. */
  ghost predicate IsLeast(v: Keys, n: Node, need: int) {
    n in v && need <= v[n].size && forall m :: m in v && need <= v[m].size ==> Comp(Szad, v[n], v[m]) <= 0
  }

  /** Something remains on both sides of the block, so that one more node is needed. */
  ghost predicate NeedsNode(v: Keys, n: Node, size: nat, alignment: nat)
    requires n in v && alignment > 0
  {
    v[n].addr < AlignUp(v[n].addr, alignment) && AlignUp(v[n].addr, alignment) + size < v[n].End()
  }

  /** chunk_recycle finds an extent, and gets the node it needs. */
  ghost predicate Recyclable(v: Keys, size: nat, alignment: nat, c: nat, node: bool)
    requires alignment > 0
  {
    && size + alignment - c < TWO_64
    && exists n :: IsLeast(v, n, size + alignment - c) && (node || !NeedsNode(v, n, size, alignment))
  }

  /** The address is recorded or in use. */
  ghost predicate Occupied(v: Keys, owned: set<Ext>, a: int) {
    Covers(v, a) || exists q :: q in owned && q.Has(a)
  }

  /** Cutting a block out leaves every address occupied that was. */
  lemma TakenOccupies(v: Keys, v': Keys, owned: set<Ext>, size: nat, alignment: nat, c: nat, ret: nat, pending: Option<Ext>, a: int)
    requires c > 0 && alignment > 0 && Carved(v, v', owned, size, alignment, c, ret, pending)
    ensures Occupied(v', Taking(owned, ret, size, pending), a) <==> Occupied(v, owned, a)
  {
    var owned' := Taking(owned, ret, size, pending);
    assert Ext(ret, size) in owned' && (pending.Some? ==> pending.value in owned');
  }

  /** Recording a range in use leaves every address occupied that was. */
  lemma RecordedOccupies(v: Keys, v': Keys, owned: set<Ext>, r: Ext, a: int)
    requires r in owned && (Covers(v', a) <==> Covers(v, a) || r.Has(a))
    ensures Occupied(v', owned - {r}, a) <==> Occupied(v, owned, a)
  {
    forall q | q in owned && q.Has(a) ensures Occupied(v', owned - {r}, a) {
      assert q != r ==> q in owned - {r};
    }
  }

  /** Which extent is least does not depend on the node that holds it. */
  lemma SameLeast(v: Keys, n: Node, m: Node, need: int)
    requires IsLeast(v, n, need) && IsLeast(v, m, need)
    ensures v[n] == v[m]
  {
    TotalOrder(Szad, v[n], v[m], v[m]);
  }

  /** What was taken tells whether a node was needed. */
  lemma TakenNeeds(v: Keys, v': Keys, size: nat, alignment: nat, c: nat, ret: nat, pending: Option<Ext>, node: bool)
    requires alignment > 0 && Taken(v, v', size, alignment, c, ret, pending) && size + alignment - c < TWO_64
    ensures Recyclable(v, size, alignment, c, node) <==> node || pending.None?
  {
    var n :| FromLeast(v, n, size, alignment, c, ret) && pending == Pending(v[n], ret - v[n].addr, size);
    assert IsLeast(v, n, size + alignment - c);
    assert pending.Some? <==> NeedsNode(v, n, size, alignment);
    forall m | IsLeast(v, m, size + alignment - c) ensures NeedsNode(v, m, size, alignment) <==> pending.Some? {
      SameLeast(v, n, m, size + alignment - c);
    }
  }

  /** Without an extent that is large enough nothing is recycled. */
  lemma NoneLargeEnough(v: Keys, size: nat, alignment: nat, c: nat, node: bool)
    requires alignment > 0
    requires size + alignment - c >= TWO_64 || forall n :: n in v ==> v[n].size < size + alignment - c
    ensures !Recyclable(v, size, alignment, c, node)
  {
  }

  /** Exactly the block was taken out; one more node may be in use. */
  ghost predicate Recycled(v: Keys, v': Keys, block: Ext, n: Option<Node>) {
    && v'.Keys <= v.Keys + (if n.Some? then {n.value} else {})
    && (forall a :: Covers(v', a) <==> Covers(v, a) && !block.Has(a))
    && (forall a :: block.Has(a) ==> Covers(v, a))
  }

  lemma TakenIsRecycled(v: Keys, v': Keys, size: nat, alignment: nat, c: nat, ret: nat, n: Option<Node>)
    requires alignment > 0 && Taken(v, v', size, alignment, c, ret, None)
    ensures Recycled(v, v', Ext(ret, size), n)
  {
  }

  lemma CutTaken(v: Keys, n: Node, lead: nat, size: nat, alignment: nat, c: nat)
    requires Spread(v) && n in v && size > 0 && lead + size <= v[n].size && alignment > 0
    requires FromLeast(v, n, size, alignment, c, v[n].addr + lead) && Multiple(v[n].addr + lead, alignment)
    ensures Taken(v, Cut(v, n, lead, size), size, alignment, c, v[n].addr + lead, Pending(v[n], lead, size))
  {
    forall a ensures Covers(Cut(v, n, lead, size), a) <==>
              Covers(v, a) && !Ext(v[n].addr + lead, size).Has(a) && !In(Pending(v[n], lead, size), a)
    {
      CutCovers(v, n, lead, size, a);
    }
    forall a | v[n].Has(a) ensures Covers(v, a) {
    }
    if Coalesced(v) {
      CutCoalesced(v, n, lead, size);
    }
  }

  /** The ranges in use with the block and the pending range. */
  function Taking(owned: set<Ext>, ret: nat, size: nat, pending: Option<Ext>): set<Ext> {
    owned + {Ext(ret, size)} + Ranges(pending)
  }

  /** No extent begins there. */
  ghost predicate NoneAt(v: Keys, addr: int) {
    forall n :: n in v ==> v[n].addr != addr
  }

  /** The search for an extent fails. */
  ghost predicate Scarce(v: Keys, size: nat, alignment: nat, c: nat) {
    size + alignment - c >= TWO_64 || forall n :: n in v ==> v[n].size < size + alignment - c
  }

  /** The block and the pending range were taken, and nobody had them. */
  ghost predicate Carved(v: Keys, v': Keys, owned: set<Ext>, size: nat, alignment: nat, c: nat, ret: nat, pending: Option<Ext>)
    requires c > 0 && alignment > 0
  {
    && Taken(v, v', size, alignment, c, ret, pending)
    && AllFit(v', c) && Disjoint(v', Taking(owned, ret, size, pending), c)
    && Ext(ret, size) !in owned && Ranges(pending) !! owned + {Ext(ret, size)}
  }

  /** Where the block goes in the extent found. */
  lemma LeadFits(e: Ext, size: nat, alignment: nat, c: nat)
    requires c > 0 && Fits(e, c) && alignment > 0 && Multiple(alignment, c) && size + alignment - c <= e.size
    ensures var lead := AlignUp(e.addr, alignment) - e.addr;
      0 <= lead && lead + size <= e.size && Multiple(lead, c) && Multiple(e.addr + lead, alignment)
  {
    AlignedBlockFits(e.addr, e.size, size, alignment, c);
    AlignUpIsLeast(e.addr, alignment, e.addr);
  }

  lemma CutCarves(v: Keys, v': Keys, n: Node, lead: nat, size: nat, alignment: nat, owned: set<Ext>, c: nat)
    requires c > 0 && Spread(v) && AllFit(v, c) && Disjoint(v, owned, c) && n in v && size > 0 && alignment > 0
    requires lead + size <= v[n].size && Multiple(size, c) && Multiple(lead, c) && Multiple(v[n].addr + lead, alignment)
    requires FromLeast(v, n, size, alignment, c, v[n].addr + lead) && v' == Cut(v, n, lead, size)
    ensures Carved(v, v', owned, size, alignment, c, v[n].addr + lead, Pending(v[n], lead, size))
  {
    CutTaken(v, n, lead, size, alignment, c);
    CutDisjoint(v, n, lead, size, owned, c);
  }

  // --------------------------------------------------------------------------
  // Recording a range
  // --------------------------------------------------------------------------

  function Joined(a: Ext, b: Ext): Ext {
    Ext(a.addr, a.size + b.size)
  }

  lemma JoinedFits(a: Ext, b: Ext, c: nat)
    requires c > 0 && Fits(a, c) && Fits(b, c) && a.End() == b.addr
    ensures Fits(Joined(a, b), c)
  {
    MultipleSum(a.size, b.size, c);
  }

  lemma AllFitWith(v: Keys, n: Node, e: Ext, c: nat)
    requires c > 0 && AllFit(v, c) && Fits(e, c)
    ensures AllFit(v[n := e], c)
  {
  }

  /** Only node `n` may still begin where another extent ends. */
  ghost predicate CoalescedBut(v: Keys, n: Node) {
    forall p, q :: p in v && q in v && v[p].End() == v[q].addr ==> q == n
  }

  /** The range is recorded, as the beginning of the extent of node `n`. */
  ghost predicate Entered(v: Keys, v': Keys, n: Node, r: Ext, c: nat)
    requires c > 0
  {
    && AllFit(v', c) && n in v' && v'[n].addr == r.addr
    && (forall a :: Covers(v', a) <==> Covers(v, a) || r.Has(a))
    && (Coalesced(v) ==> CoalescedBut(v', n))
  }

  /** The range joins the extent of node `n` that begins where it ends. */
  lemma JoinedOutside(v: Keys, n: Node, r: Ext)
    requires Spread(v) && n in v && Outside(v, r) && r.End() == v[n].addr
    ensures Outside(v - {n}, Joined(r, v[n]))
  {
    forall m | m in v - {n} ensures Apart(v[m], Joined(r, v[n])) {
      TwoNodes(v, m, n);
    }
  }

  lemma JoinForward(v: Keys, n: Node, r: Ext)
    requires Spread(v) && n in v && r.size > 0 && Outside(v, r) && r.End() == v[n].addr
    ensures Spread(v[n := Joined(r, v[n])])
    ensures forall a :: Covers(v[n := Joined(r, v[n])], a) <==> Covers(v, a) || r.Has(a)
    ensures Coalesced(v) ==> CoalescedBut(v[n := Joined(r, v[n])], n)
  {
    var e := Joined(r, v[n]);
    JoinedOutside(v, n, r);
    SpreadWith(v, n, e);
    forall a ensures Covers(v[n := e], a) <==> Covers(v, a) || r.Has(a) {
      CoversWith(v, n, e, a);
      CoversWithout(v, n, a);
      if v[n].Has(a) {
        assert Covers(v, a);
      }
    }
  }

  lemma ForwardEnters(v: Keys, v': Keys, n: Node, r: Ext, c: nat)
    requires c > 0 && Spread(v) && AllFit(v, c) && Fits(r, c) && Outside(v, r) && n in v && r.End() == v[n].addr
    requires v' == v[n := Joined(r, v[n])]
    ensures Entered(v, v', n, r, c)
  {
    JoinForward(v, n, r);
    JoinedFits(r, v[n], c);
    AllFitWith(v, n, Joined(r, v[n]), c);
  }

  /** The range gets a node of its own. */
  lemma JoinNothing(v: Keys, n: Node, r: Ext)
    requires Spread(v) && n !in v && r.size > 0 && Outside(v, r)
    ensures v - {n} == v && Spread(v[n := r])
    ensures forall a :: Covers(v[n := r], a) <==> Covers(v, a) || r.Has(a)
    ensures Coalesced(v) && (forall m :: m in v ==> v[m].addr != r.End()) ==> CoalescedBut(v[n := r], n)
  {
    assert v - {n} == v;
    SpreadWith(v, n, r);
    forall a ensures Covers(v[n := r], a) <==> Covers(v, a) || r.Has(a) {
      CoversWith(v, n, r, a);
    }
  }

  /** Node `n` absorbs the extent of `p` that ends where its own begins. */
  lemma JoinBackward(v: Keys, n: Node, p: Node)
    requires Spread(v) && n in v && p in v && v[p].End() == v[n].addr
    ensures var e := Joined(v[p], v[n]);
      && n != p && Outside(v - {p} - {n}, e) && Spread((v - {p})[n := e])
      && (forall a :: Covers((v - {p})[n := e], a) <==> Covers(v, a))
      && (CoalescedBut(v, n) ==> Coalesced((v - {p})[n := e]))
  {
    var e := Joined(v[p], v[n]);
    SpreadWithout(v, p);
    forall m | m in v - {p} - {n} ensures Apart(v[m], e) {
      TwoNodes(v, m, n);
      TwoNodes(v, m, p);
    }
    SpreadWith(v - {p}, n, e);
    forall a ensures Covers((v - {p})[n := e], a) <==> Covers(v, a) {
      CoversWith(v - {p}, n, e, a);
      CoversWithout(v - {p}, n, a);
      CoversWithout(v, p, a);
      if v[n].Has(a) || v[p].Has(a) {
        assert Covers(v, a);
      }
    }
    if CoalescedBut(v, n) {
      JoinedCoalesced(v, n, p);
    }
  }

  lemma JoinedCoalesced(v: Keys, n: Node, p: Node)
    requires Spread(v) && n in v && p in v && v[p].End() == v[n].addr && CoalescedBut(v, n)
    ensures Coalesced((v - {p})[n := Joined(v[p], v[n])])
  {
    var v' := (v - {p})[n := Joined(v[p], v[n])];
    forall i, j | i in v' && j in v' ensures v'[i].End() != v'[j].addr {
      TwoNodes(v, i, p);
      TwoNodes(v, i, n);
      TwoNodes(v, j, n);
    }
  }

  lemma SearchBySize(t: Trees, need: nat)
    requires Inv(t)
    ensures var found := Nsearch(Szad, t.k, t.szad, Ext(0, need));
      && (found.None? ==> forall n :: n in View(t) ==> View(t)[n].size < need)
      && (found.Some? ==> found.value in View(t) && View(t)[found.value].size >= need)
      && (found.Some? ==> forall m :: m in View(t) && need <= View(t)[m].size ==> Comp(Szad, View(t)[found.value], View(t)[m]) <= 0)
  {
    forall m | m in View(t) ensures m in t.szad && View(t)[m] == t.k[m] {
    }
  }

  /** The extent that begins at an address, if there is one, is found by its address. */
  lemma SearchByAddress(t: Trees, end: nat, c: nat)
    requires Inv(t) && c > 0 && AllFit(View(t), c) && end <= TWO_64
    ensures var found := Nsearch(Ad, t.k, t.ad, Ext(end % TWO_64, 0));
      && (found.Some? ==> found.value in View(t) && View(t)[found.value] == t.k[found.value])
      && (forall n :: n in View(t) ==> (View(t)[n].addr == end ==> found == Some(n)))
      && (found.Some? && t.k[found.value].addr == end % TWO_64 ==> t.k[found.value].addr == end)
  {
    var found := Nsearch(Ad, t.k, t.ad, Ext(end % TWO_64, 0));
    forall n | n in View(t) ensures View(t)[n].addr == end ==> found == Some(n) {
      AddressFound(t, n, end, c);
    }
    assert found.Some? ==> found.value in View(t) && Fits(View(t)[found.value], c);
  }

  lemma AddressFound(t: Trees, n: Node, end: nat, c: nat)
    requires Inv(t) && c > 0 && AllFit(View(t), c) && n in View(t) && end <= TWO_64
    ensures View(t)[n].addr == end ==> Nsearch(Ad, t.k, t.ad, Ext(end % TWO_64, 0)) == Some(n)
  {
    assert View(t)[n] == t.k[n] && Fits(t.k[n], c);
    if t.k[n].addr == end {
      assert Comp(Ad, t.k[n], Ext(end % TWO_64, 0)) >= 0;
      SameAddress(t, n, Nsearch(Ad, t.k, t.ad, Ext(end % TWO_64, 0)).value);
    }
  }

  lemma SameAddress(t: Trees, n: Node, m: Node)
    requires Inv(t) && n in t.ad && m in t.ad && t.k[n].addr == t.k[m].addr
    ensures n == m
  {
    assert n in View(t) && m in View(t);
    TwoNodes(View(t), n, m);
  }

  lemma NoNeighbour(t: Trees, n: Node, c: nat)
    requires Inv(t) && c > 0 && AllFit(View(t), c) && n in View(t)
    requires var prev := Prev(t.ad, n); prev.Some? ==> t.k[prev.value].End() % TWO_64 != t.k[n].addr
    ensures CoalescedBut(View(t), n) ==> Coalesced(View(t))
  {
    var v := View(t);
    if CoalescedBut(v, n) {
      forall p, q | p in v && q in v ensures v[p].End() != v[q].addr {
        if v[p].End() == v[n].addr {
          assert Fits(v[n], c) && v[p] == t.k[p] && v[n] == t.k[n];
          NeighbourIsPrev(t, n, p);
        }
      }
    }
  }

  /** Taking a block out and recording it again, coalesced both times. */
  lemma RoundTrip(v: Keys, v': Keys, v'': Keys, block: Ext, n: Option<Node>)
    requires Spread(v) && Spread(v'') && Coalesced(v) && Coalesced(v'') && Recycled(v, v', block, n)
    requires forall a :: Covers(v'', a) <==> Covers(v', a) || block.Has(a)
    ensures v''.Values == v.Values
  {
    CanonicalExtents(v, v'');
  }

  lemma ApartIsUnshared(q: Ext, r: Ext)
    requires q.size > 0 && r.size > 0
    ensures Apart(q, r) <==> forall a :: r.Has(a) ==> !q.Has(a)
  {
    if !Apart(q, r) {
      var a := if q.addr > r.addr then q.addr else r.addr;
      assert r.Has(a) && q.Has(a);
    }
  }

  class Chunks {
    const chunksize: nat
    var t: Trees
    var owned: set<Ext>

    ghost predicate Valid()
      reads this
    {
      chunksize > 0 && Inv(t) && AllFit(View(t), chunksize) && Disjoint(View(t), owned, chunksize)
    }

    constructor (chunksize: nat)
      requires chunksize > 0
      ensures Valid() && this.chunksize == chunksize && owned == {} && t.ad == [] && Coalesced(View(t))
    {
      this.chunksize := chunksize;
      t := Trees(map[], [], []);
      owned := {};
    }

    /** The search in the size tree: the smallest extent, and of those the lowest. */
    method FindExtent(size: nat, alignment: nat) returns (found: Option<Node>)
      requires Valid() && 0 < size < TWO_64
      requires 0 < alignment < TWO_64 && Multiple(alignment, chunksize)
      ensures found.None? <==> Scarce(View(t), size, alignment, chunksize)
      ensures found.Some? ==> found.value in View(t) && View(t)[found.value].size >= size + alignment - chunksize
      ensures found.Some? ==> forall m :: m in View(t) && size + alignment - chunksize <= View(t)[m].size ==> Comp(Szad, View(t)[found.value], View(t)[m]) <= 0
    {
      MultipleGap(0, alignment, chunksize);
      var allocSize := (size + alignment - chunksize) % TWO_64;
      assert size + alignment - chunksize < TWO_64 ==> allocSize == size + alignment - chunksize;
      if allocSize < size {
        return None;
      }
      SearchBySize(t, allocSize);
      found := Nsearch(Szad, t.k, t.szad, Ext(0, allocSize));
    }

    /**
     * chunk_recycle up to the end of its first critical section.  The block comes from
     * the smallest extent, and the lowest of those, that is sure to hold an aligned block.
     * What remains behind the block goes back at once if the node is still at hand, else it
     * is `pending`: the lock is dropped to allocate a node.
     */
    method TakeExtent(size: nat, alignment: nat) returns (ret: Option<nat>, pending: Option<Ext>)
      requires Valid() && 0 < size < TWO_64 && Multiple(size, chunksize)
      requires 0 < alignment < TWO_64 && Multiple(alignment, chunksize)
      modifies this
      ensures Valid()
      ensures ret.None? ==> t == old(t) && owned == old(owned) && pending.None?
      ensures ret.None? <==> Scarce(old(View(t)), size, alignment, chunksize)
      ensures ret.Some? ==> Carved(old(View(t)), View(t), old(owned), size, alignment, chunksize, ret.value, pending)
      ensures ret.Some? ==> owned == Taking(old(owned), ret.value, size, pending)
    {
      var found := FindExtent(size, alignment);
      if found.None? {
        return None, None;
      }
      var block;
      block, pending := CarveFrom(found.value, size, alignment);
      ret := Some(block);
    }

    /** Cut the block out of the extent found. */
    method CarveFrom(n: Node, size: nat, alignment: nat) returns (ret: nat, pending: Option<Ext>)
      requires Valid() && size > 0 && Multiple(size, chunksize) && alignment > 0 && Multiple(alignment, chunksize)
      requires n in View(t) && size + alignment - chunksize <= View(t)[n].size
      requires forall m :: m in View(t) && size + alignment - chunksize <= View(t)[m].size ==> Comp(Szad, View(t)[n], View(t)[m]) <= 0
      modifies this
      ensures Valid()
      ensures Carved(old(View(t)), View(t), old(owned), size, alignment, chunksize, ret, pending)
      ensures owned == Taking(old(owned), ret, size, pending)
    {
      var e := t.k[n];
      ghost var v := View(t);
      assert v[n] == e;
      LeadFits(e, size, alignment, chunksize);
      var lead: nat := AlignUp(e.addr, alignment) - e.addr;
      assert FromLeast(v, n, size, alignment, chunksize, e.addr + lead);
      pending := CutNode(n, lead, size);
      CutCarves(v, View(t), n, lead, size, alignment, owned, chunksize);
      ret := e.addr + lead;
      owned := Taking(owned, ret, size, pending);
    }

    /** Remove a node from both trees. */
    method DropNode(n: Node)
      requires Inv(t) && n in View(t)
      modifies this`t
      ensures Inv(t) && View(t) == old(View(t)) - {n}
    {
      DropKeeps(t, n);
      t := Drop(t, n);
    }

    /** Give a node its address and size and insert it into both trees. */
    method AddNode(n: Node, e: Ext)
      requires Inv(t) && n !in View(t) && e.size > 0 && Outside(View(t), e)
      modifies this`t
      ensures Inv(t) && View(t) == old(View(t))[n := e]
    {
      AddKeeps(t, n, e);
      t := Add(t, n, e);
    }

    /** Change a node that stays in the address tree. */
    method EnlargeNode(n: Node, e: Ext)
      requires Inv(t) && n in View(t) && e.addr <= View(t)[n].addr && View(t)[n].End() <= e.End()
      requires Outside(View(t) - {n}, e)
      modifies this`t
      ensures Inv(t) && View(t) == old(View(t))[n := e]
    {
      EnlargeKeeps(t, n, e);
      t := Enlarge(t, n, e);
    }

    /** Take the node out of both trees and put back what remains, as far as one node goes. */
    method CutNode(n: Node, lead: nat, size: nat) returns (pending: Option<Ext>)
      requires Inv(t) && n in View(t) && size > 0 && lead + size <= View(t)[n].size
      modifies this`t
      ensures Inv(t) && View(t) == Cut(old(View(t)), n, lead, size) && pending == Pending(old(View(t))[n], lead, size)
    {
      var e := t.k[n];
      ghost var v := View(t);
      DropNode(n);
      pending := PutRest(n, e, lead, size, v);
    }

    /** What remains before the block goes back, and else what remains behind it. */
    method PutRest(n: Node, e: Ext, lead: nat, size: nat, ghost v: Keys) returns (pending: Option<Ext>)
      requires Inv(t) && Spread(v) && n in v && e == v[n] && View(t) == v - {n} && size > 0 && lead + size <= e.size
      modifies this`t
      ensures Inv(t) && View(t) == Cut(v, n, lead, size) && pending == Pending(e, lead, size)
    {
      CutSpread(v, n, lead, size);
      CutInSteps(v, n, lead, size);
      var trail := e.size - lead - size;
      pending := None;
      if lead != 0 {
        AddNode(n, Ext(e.addr, lead));
      }
      if trail != 0 {
        if lead != 0 {
          pending := Some(Ext(e.addr + lead + size, trail));
        } else {
          AddNode(n, Ext(e.addr + size, trail));
        }
      }
    }

    /** The search in the address tree for the extent that begins at `end`. */
    method FindAt(end: nat) returns (found: Option<Node>)
      requires Valid() && end <= TWO_64
      ensures found.Some? ==> found.value in View(t) && View(t)[found.value].addr == end
      ensures found.None? ==> forall n :: n in View(t) ==> View(t)[n].addr != end
    {
      var key := end % TWO_64;
      SearchByAddress(t, end, chunksize);
      found := Nsearch(Ad, t.k, t.ad, Ext(key, 0));
      if found.Some? && t.k[found.value].addr != key {
        found := None;
      }
    }

    /** The extent of the node that begins where the range ends grows to hold the range. */
    method ExtendDown(node: Node, r: Ext)
      requires Valid() && Fits(r, chunksize) && Outside(View(t), r) && node in View(t) && View(t)[node].addr == r.End()
      modifies this`t
      ensures Inv(t) && Entered(old(View(t)), View(t), node, r, chunksize)
    {
      ghost var v := View(t);
      var e := t.k[node];
      assert v[node] == e;
      JoinedOutside(v, node, r);
      EnlargeNode(node, Ext(r.addr, e.size + r.size));
      ForwardEnters(v, View(t), node, r, chunksize);
    }

    /** Coalesce forward, or else insert the range with the spare node. */
    method JoinAfter(r: Ext, xnode: Option<Node>) returns (leaked: bool, node: Node)
      requires Valid() && Fits(r, chunksize) && Outside(View(t), r) && (xnode.Some? ==> xnode.value !in View(t))
      modifies this`t
      ensures Inv(t)
      ensures leaked <==> xnode.None? && NoneAt(old(View(t)), r.End())
      ensures leaked ==> t == old(t)
      ensures !leaked ==> Entered(old(View(t)), View(t), node, r, chunksize)
    {
      ghost var v := View(t);
      var found := FindAt(r.End());
      if found.Some? {
        leaked, node := false, found.value;
        ExtendDown(node, r);
      } else if xnode.Some? {
        leaked, node := false, xnode.value;
        JoinNothing(v, node, r);
        AllFitWith(v, node, r, chunksize);
        AddNode(node, r);
        assert View(t) == v[node := r];
      } else {
        leaked, node := true, 0;
      }
    }

    /** Coalesce backward: the node absorbs the one before it if that ends where it begins. */
    method JoinBefore(node: Node)
      requires Inv(t) && chunksize > 0 && AllFit(View(t), chunksize) && node in View(t)
      modifies this`t
      ensures Inv(t) && AllFit(View(t), chunksize)
      ensures forall a :: Covers(View(t), a) <==> Covers(old(View(t)), a)
      ensures CoalescedBut(old(View(t)), node) ==> Coalesced(View(t))
    {
      ghost var v := View(t);
      var prev := Prev(t.ad, node);
      if prev.Some? && t.k[prev.value].End() % TWO_64 == t.k[node].addr {
        var p, e := t.k[prev.value], t.k[node];
        assert v[prev.value] == p && v[node] == e;
        assert Fits(p, chunksize) && Fits(e, chunksize);
        JoinBackward(v, node, prev.value);
        JoinedFits(p, e, chunksize);
        AllFitWith(v - {prev.value}, node, Joined(p, e), chunksize);
        DropNode(prev.value);
        EnlargeNode(node, Ext(p.addr, e.size + p.size));
        assert View(t) == (v - {prev.value})[node := Joined(p, e)];
      } else {
        NoNeighbour(t, node, chunksize);
      }
    }

    /**
     * chunk_record, with a spare node if one could be allocated.  The range joins the
     * extents it touches.  It is lost only if it needs a node and there is none.
     */
    method Record(r: Ext, xnode: Option<Node>) returns (leaked: bool)
      requires Valid() && r in owned && (xnode.Some? ==> xnode.value !in View(t))
      modifies this
      ensures Valid()
      ensures leaked <==> xnode.None? && NoneAt(old(View(t)), r.End())
      ensures leaked ==> t == old(t) && owned == old(owned)
      ensures !leaked ==> owned == old(owned) - {r}
      ensures !leaked ==> forall a :: Covers(View(t), a) <==> Covers(old(View(t)), a) || r.Has(a)
      ensures Coalesced(old(View(t))) ==> Coalesced(View(t))
    {
      ghost var v := View(t);
      var node;
      leaked, node := JoinAfter(r, xnode);
      if leaked {
        return;
      }
      JoinBefore(node);
      HandBack(v, View(t), owned, r, chunksize);
      owned := owned - {r};
    }

    /** The second critical section of chunk_recycle: the pending range goes back, uncoalesced. */
    method InsertTrail(r: Ext, n: Node)
      requires Valid() && r in owned && n !in View(t)
      modifies this
      ensures Valid() && owned == old(owned) - {r}
      ensures View(t) == old(View(t))[n := r]
      ensures forall a :: Covers(View(t), a) <==> Covers(old(View(t)), a) || r.Has(a)
      ensures Coalesced(old(View(t))) && Isolated(old(View(t)), r) ==> Coalesced(View(t))
    {
      ghost var v := View(t);
      JoinNothing(v, n, r);
      AllFitWith(v, n, r, chunksize);
      AddNode(n, r);
      assert View(t) == v[n := r];
      HandBack(v, View(t), owned, r, chunksize);
      owned := owned - {r};
    }

    /** The system maps a range that nothing else uses. */
    method Map(r: Ext)
      requires Valid() && Fits(r, chunksize) && Outside(View(t), r) && forall q :: q in owned ==> Apart(q, r)
      modifies this`owned
      ensures Valid() && owned == old(owned) + {r}
    {
      TakeOver(View(t), owned, r, chunksize);
      owned := owned + {r};
    }

    /** The system takes a range back. */
    method Unmap(r: Ext)
      requires Valid()
      modifies this`owned
      ensures Valid() && owned == old(owned) - {r}
    {
      GiveUp(View(t), owned, r, chunksize);
      owned := owned - {r};
    }

    /**
     * chunk_recycle without interference.  `trailNode` and `xnode` are the answers of the
     * node allocator.  Without a node the trailing range is lost and the block is given up.
     */
    method Recycle(size: nat, alignment: nat, trailNode: Option<Node>, xnode: Option<Node>) returns (ret: Option<nat>)
      requires Valid() && 0 < size < TWO_64 && Multiple(size, chunksize)
      requires 0 < alignment < TWO_64 && Multiple(alignment, chunksize)
      requires (trailNode.Some? ==> trailNode.value !in View(t)) && (xnode.Some? ==> xnode.value !in View(t))
      modifies this
      ensures Valid() && (Coalesced(old(View(t))) ==> Coalesced(View(t)))
      ensures ret.Some? ==> Recycled(old(View(t)), View(t), Ext(ret.value, size), trailNode) && Multiple(ret.value, alignment)
      ensures ret.Some? ==> owned == old(owned) + {Ext(ret.value, size)} && Ext(ret.value, size) !in old(owned)
      ensures ret.Some? <==> Recyclable(old(View(t)), size, alignment, chunksize, trailNode.Some?)
      ensures ret.None? ==> old(owned) <= owned && forall a :: Occupied(View(t), owned, a) <==> Occupied(old(View(t)), old(owned), a)
    {
      ghost var v := View(t);
      var pending;
      ret, pending := TakeExtent(size, alignment);
      if ret.Some? {
        TakenNeeds(v, View(t), size, alignment, chunksize, ret.value, pending, trailNode.Some?);
      } else {
        NoneLargeEnough(v, size, alignment, chunksize, trailNode.Some?);
      }
      if pending.Some? {
        if trailNode.None? {
          GiveUpBlock(Ext(ret.value, size), alignment, pending, xnode, v, old(owned));
          return None;
        }
        FinishRecycle(ret.value, size, alignment, pending.value, trailNode.value, v);
        assert owned == old(owned) + {Ext(ret.value, size)};
      } else if ret.Some? {
        TakenIsRecycled(v, View(t), size, alignment, chunksize, ret.value, trailNode);
      }
    }

    /** Without a node the block is recorded again and the range behind it is lost. */
    method GiveUpBlock(block: Ext, alignment: nat, ghost pending: Option<Ext>, xnode: Option<Node>, ghost v: Keys, ghost owned0: set<Ext>)
      requires Valid() && alignment > 0 && Carved(v, View(t), owned0, block.size, alignment, chunksize, block.addr, pending)
      requires owned == Taking(owned0, block.addr, block.size, pending) && (xnode.Some? ==> xnode.value !in View(t))
      modifies this
      ensures Valid() && owned0 <= owned && (Coalesced(old(View(t))) ==> Coalesced(View(t)))
      ensures forall a :: Occupied(View(t), owned, a) <==> Occupied(v, owned0, a)
    {
      ghost var v1, owned1 := View(t), owned;
      var leaked := Record(block, xnode);
      forall a ensures Occupied(View(t), owned, a) <==> Occupied(v, owned0, a) {
        TakenOccupies(v, v1, owned0, block.size, alignment, chunksize, block.addr, pending, a);
        if !leaked {
          RecordedOccupies(v1, View(t), owned1, block, a);
        }
      }
    }

    /** The lock is held again, with a node for what remains behind the block. */
    method FinishRecycle(ret: nat, size: nat, alignment: nat, pending: Ext, n: Node, ghost v: Keys)
      requires Valid() && pending in owned && pending != Ext(ret, size) && n !in v && alignment > 0
      requires Taken(v, View(t), size, alignment, chunksize, ret, Some(pending))
      modifies this
      ensures Valid() && owned == old(owned) - {pending}
      ensures Recycled(v, View(t), Ext(ret, size), Some(n)) && (Coalesced(v) ==> Coalesced(View(t)))
    {
      ghost var u := View(t);
      InsertTrail(pending, n);
    }

    /** Recycling a block and recording it again restores the extents exactly. */
    method RecycleThenRecord(size: nat, alignment: nat, trailNode: Node, xnode: Node) returns (ret: Option<nat>, ghost mid: Keys)
      requires Valid() && 0 < size < TWO_64 && Multiple(size, chunksize) && Coalesced(View(t))
      requires 0 < alignment < TWO_64 && Multiple(alignment, chunksize)
      requires trailNode !in View(t) && xnode !in View(t) && trailNode != xnode
      modifies this
      ensures Valid()
      ensures ret.Some? ==> Recycled(old(View(t)), mid, Ext(ret.value, size), Some(trailNode))
      ensures ret.Some? ==> View(t).Values == old(View(t)).Values
    {
      ghost var v := View(t);
      ret := Recycle(size, alignment, Some(trailNode), Some(xnode));
      mid := View(t);
      if ret.Some? {
        var leaked := Record(Ext(ret.value, size), Some(xnode));
        RoundTrip(v, mid, View(t), Ext(ret.value, size), Some(trailNode));
      }
    }

    /** What the system may map: a range that nothing uses. */
    predicate Unused(r: Ext)
      requires chunksize > 0 && forall n :: n in t.ad ==> n in t.k
      reads this
    {
      && Fits(r, chunksize)
      && (forall n :: n in t.ad ==> Apart(t.k[n], r))
      && (forall q :: q in owned ==> Apart(q, r))
    }

    lemma UnusedIsUnoccupied(r: Ext)
      requires Valid()
      ensures Unused(r) <==> Fits(r, chunksize) && forall a :: r.Has(a) ==> !Occupied(View(t), owned, a)
    {
      if Fits(r, chunksize) {
        OutsideIsUncovered(View(t), r);
        assert forall n :: n in t.ad <==> n in View(t);
        assert forall n :: n in View(t) ==> View(t)[n] == t.k[n];
        forall q | q in owned ensures Apart(q, r) <==> forall a :: r.Has(a) ==> !q.Has(a) {
          ApartIsUnshared(q, r);
        }
      }
    }

    /** The system's answer can be used. */
    ghost predicate CanMap(mapped: Option<nat>, size: nat, alignment: nat)
      requires Valid() && alignment > 0
      reads this
    {
      mapped.Some? && Multiple(mapped.value, alignment) && Unused(Ext(mapped.value, size))
    }

    /** What chunk_alloc needs to succeed. */
    ghost predicate Obtains(size: nat, alignment: nat, base: bool, node: bool, mapped: Option<nat>, registered: bool)
      requires Valid() && alignment > 0
      reads this
    {
      (base || registered) && Finds(size, alignment, base, node, mapped)
    }

    /** There is a range to recycle or to map. */
    ghost predicate Finds(size: nat, alignment: nat, base: bool, node: bool, mapped: Option<nat>)
      requires Valid() && alignment > 0
      reads this
    {
      (!base && Recyclable(View(t), size, alignment, chunksize, node)) || CanMap(mapped, size, alignment)
    }

    /** Recycle, or else take what the system maps. */
    method Find(size: nat, alignment: nat, base: bool, trailNode: Option<Node>, xnode: Option<Node>, mapped: Option<nat>) returns (ret: Option<nat>)
      requires Valid() && 0 < size < TWO_64 && Multiple(size, chunksize)
      requires 0 < alignment < TWO_64 && Multiple(alignment, chunksize)
      requires (trailNode.Some? ==> trailNode.value !in View(t)) && (xnode.Some? ==> xnode.value !in View(t))
      modifies this
      ensures Valid() && old(owned) <= owned && (Coalesced(old(View(t))) ==> Coalesced(View(t)))
      ensures ret.Some? ==> Ext(ret.value, size) in owned && Ext(ret.value, size) !in old(owned) && Multiple(ret.value, alignment)
      ensures ret.Some? <==> old(Finds(size, alignment, base, trailNode.Some?, mapped))
      ensures base ==> t == old(t) && owned == old(owned) + (if ret.Some? then {Ext(ret.value, size)} else {})
    {
      ret := None;
      if mapped.Some? {
        UnusedIsUnoccupied(Ext(mapped.value, size));
      }
      if !base {
        ret := Recycle(size, alignment, trailNode, xnode);
      }
      if mapped.Some? {
        UnusedIsUnoccupied(Ext(mapped.value, size));
      }
      if ret.None? && mapped.Some? && Multiple(mapped.value, alignment) && Unused(Ext(mapped.value, size)) {
        Map(Ext(mapped.value, size));
        ret := mapped;
      }
    }

    /**
     * chunk_alloc without interference: recycle, or else take what the system maps.  For the
     * base allocator nothing is recycled or registered; a block that cannot be registered goes
     * back, with `rnode` as the answer of the node allocator then.
     */
    method Alloc(size: nat, alignment: nat, base: bool, trailNode: Option<Node>, xnode: Option<Node>, mapped: Option<nat>,
                 registered: bool, unmapped: bool, rnode: Option<Node>) returns (ret: Option<nat>)
      requires Valid() && 0 < size < TWO_64 && Multiple(size, chunksize)
      requires 0 < alignment < TWO_64 && Multiple(alignment, chunksize)
      requires (trailNode.Some? ==> trailNode.value !in View(t)) && (xnode.Some? ==> xnode.value !in View(t))
      modifies this
      ensures Valid() && old(owned) <= owned && (Coalesced(old(View(t))) ==> Coalesced(View(t)))
      ensures ret.Some? ==> Ext(ret.value, size) in owned && Ext(ret.value, size) !in old(owned) && Multiple(ret.value, alignment)
      ensures ret.Some? <==> old(Obtains(size, alignment, base, trailNode.Some?, mapped, registered))
      ensures base ==> t == old(t) && owned == old(owned) + (if ret.Some? then {Ext(ret.value, size)} else {})
    {
      ret := Find(size, alignment, base, trailNode, xnode, mapped);
      if ret.Some? && !base && !registered {
        var _ := Dealloc(Ext(ret.value, size), true, unmapped, if rnode.Some? && rnode.value in t.ad then None else rnode);
        ret := None;
      }
    }

    /** chunk_dealloc: without `unmap` nothing happens to the range, which nobody has any more. */
    method Dealloc(r: Ext, unmap: bool, unmapped: bool, xnode: Option<Node>) returns (leaked: bool)
      requires Valid() && r in owned && (xnode.Some? ==> xnode.value !in View(t))
      modifies this
      ensures Valid() && owned == (if leaked then old(owned) else old(owned) - {r})
      ensures leaked <==> !unmap || (!unmapped && xnode.None? && NoneAt(old(View(t)), r.End()))
      ensures leaked || unmapped ==> t == old(t)
      ensures !leaked && !unmapped ==> forall a :: Covers(View(t), a) <==> Covers(old(View(t)), a) || r.Has(a)
      ensures Coalesced(old(View(t))) ==> Coalesced(View(t))
    {
      leaked := !unmap;
      if unmap {
        if unmapped {
          Unmap(r);
        } else {
          leaked := Record(r, xnode);
        }
      }
    }
  }
}
