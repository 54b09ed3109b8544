/**
 * Extents of address space and the two orders they are kept in.  A red-black tree is the
 * sequence of its nodes in order; the keys are read from the nodes, which may be changed
 * while they are in a tree.
 */
module Extents {
  import opened Basics

  datatype Ext = Ext(addr: nat, size: nat) {
    function End(): nat {
      addr + size
    }

    predicate Has(a: int) {
      addr <= a < addr + size
    }
  }

  predicate Apart(a: Ext, b: Ext) {
    a.End() <= b.addr || b.End() <= a.addr
  }

  function Sign(x: nat, y: nat): int {
    (if x > y then 1 else 0) - (if x < y then 1 else 0)
  }

  datatype Order = Ad | Szad

  /** extent_ad_comp and extent_szad_comp. */
  function Comp(o: Order, a: Ext, b: Ext): int {
    if o == Szad && Sign(a.size, b.size) != 0 then Sign(a.size, b.size) else Sign(a.addr, b.addr)
  }

  /** Both comparisons are total orders; by size and address only equal extents compare equal. */
  lemma TotalOrder(o: Order, a: Ext, b: Ext, c: Ext)
    ensures Comp(o, a, b) == -Comp(o, b, a)
    ensures Comp(o, a, b) < 0 && Comp(o, b, c) < 0 ==> Comp(o, a, c) < 0
    ensures Comp(Szad, a, b) == 0 <==> a == b
    ensures Comp(Ad, a, b) == 0 <==> a.addr == b.addr
  {
  }

  type Node = nat
  type Keys = map<Node, Ext>

  ghost predicate Sorted(o: Order, k: Keys, t: seq<Node>) {
    && (forall n :: n in t ==> n in k)
    && (forall i, j :: 0 <= i < j < |t| ==> Comp(o, k[t[i]], k[t[j]]) < 0)
  }

  /** How many nodes come before the key. */
  function Rank(o: Order, k: Keys, t: seq<Node>, key: Ext): (r: nat)
    requires forall n :: n in t ==> n in k
    ensures r <= |t|
    ensures forall i :: 0 <= i < r ==> Comp(o, k[t[i]], key) < 0
    ensures r < |t| ==> Comp(o, k[t[r]], key) >= 0
  {
    if t == [] || Comp(o, k[t[0]], key) >= 0 then 0 else 1 + Rank(o, k, t[1..], key)
  }

  /** nsearch: the least node not below the key. */
  function Nsearch(o: Order, k: Keys, t: seq<Node>, key: Ext): (r: Option<Node>)
    requires Sorted(o, k, t)
    ensures r.Some? ==> r.value in t && Comp(o, k[r.value], key) >= 0
    ensures forall n :: n in t && Comp(o, k[n], key) >= 0 ==> r.Some? && Comp(o, k[r.value], k[n]) <= 0
  {
    var i := Rank(o, k, t, key);
    if i == |t| then None else Some(t[i])
  }

  function Insert(o: Order, k: Keys, t: seq<Node>, n: Node): seq<Node>
    requires n in k && forall m :: m in t ==> m in k
  {
    var i := Rank(o, k, t, k[n]);
    t[..i] + [n] + t[i..]
  }

  function Position(t: seq<Node>, n: Node): (i: nat)
    requires n in t
    ensures i < |t| && t[i] == n
  {
    if t[0] == n then 0 else 1 + Position(t[1..], n)
  }

  function Remove(t: seq<Node>, n: Node): seq<Node>
    requires n in t
  {
    t[..Position(t, n)] + t[Position(t, n) + 1..]
  }

  /** prev: the node just before, if there is one. */
  function Prev(t: seq<Node>, n: Node): Option<Node>
    requires n in t
  {
    var i := Position(t, n);
    if i == 0 then None else Some(t[i - 1])
  }

  lemma InsertKeeps(o: Order, k: Keys, t: seq<Node>, n: Node)
    requires Sorted(o, k, t) && n in k && forall m :: m in t ==> Comp(o, k[m], k[n]) != 0
    ensures Sorted(o, k, Insert(o, k, t, n))
    ensures forall m :: m in Insert(o, k, t, n) <==> m in t || m == n
  {
    var i := Rank(o, k, t, k[n]);
    var t' := Insert(o, k, t, n);
    forall j | i <= j < |t| ensures Comp(o, k[n], k[t[j]]) < 0 {
      assert t[j] in t;
      TotalOrder(o, k[n], k[t[i]], k[t[j]]);
    }
    forall m ensures m in t' <==> m in t || m == n {
      if m in t {
        var j := Position(t, m);
        assert t'[if j < i then j else j + 1] == m;
      }
      if m == n {
        assert t'[i] == m;
      }
    }
    forall p, q | 0 <= p < q < |t'| ensures Comp(o, k[t'[p]], k[t'[q]]) < 0 {
      var p', q' := if p < i then p else p - 1, if q < i then q else q - 1;
      assert p != i ==> t'[p] == t[p'];
      assert q != i ==> t'[q] == t[q'];
    }
  }

  lemma RemoveKeeps(o: Order, k: Keys, t: seq<Node>, n: Node)
    requires Sorted(o, k, t) && n in t
    ensures Sorted(o, k, Remove(t, n))
    ensures forall m :: m in Remove(t, n) <==> m in t && m != n
  {
    var i := Position(t, n);
    var t' := Remove(t, n);
    forall p | 0 <= p < |t'| ensures t'[p] == t[if p < i then p else p + 1] && t'[p] != n {
      TotalOrder(o, k[n], k[n], k[n]);
    }
    forall m ensures m in t' <==> m in t && m != n {
      if m in t && m != n {
        var j := Position(t, m);
        assert t'[if j < i then j else j - 1] == m;
      }
    }
  }

  /** Nodes that are not in the tree may change. */
  lemma SortedFrame(o: Order, k: Keys, k': Keys, t: seq<Node>)
    requires Sorted(o, k, t) && forall n :: n in t ==> n in k' && k'[n] == k[n]
    ensures Sorted(o, k', t)
  {
    forall i, j | 0 <= i < j < |t| ensures Comp(o, k'[t[i]], k'[t[j]]) < 0 {
      assert t[i] in t && t[j] in t;
    }
  }

  // --------------------------------------------------------------------------
  // Sets of extents, each held by a node
  // --------------------------------------------------------------------------

  ghost predicate NodesApart(v: Keys, n: Node, m: Node)
    requires n in v && m in v
  {
    n != m ==> Apart(v[n], v[m])
  }

  /** The extents are not empty and pairwise disjoint. */
  ghost predicate Spread(v: Keys) {
    && (forall n :: n in v ==> v[n].size > 0)
    && (forall n, m {:trigger NodesApart(v, n, m)} :: n in v && m in v ==> NodesApart(v, n, m))
  }

  lemma TwoNodes(v: Keys, n: Node, m: Node)
    requires Spread(v) && n in v && m in v
    ensures n == m || Apart(v[n], v[m])
  {
    assert NodesApart(v, n, m);
  }

  /** Some extent holds the address. */
  ghost predicate Covers(v: Keys, a: int) {
    exists n :: n in v && v[n].Has(a)
  }

  /** The range touches no extent. */
  ghost predicate Outside(v: Keys, r: Ext) {
    forall n :: n in v ==> Apart(v[n], r)
  }

  /** No extent begins where another ends. */
  ghost predicate Coalesced(v: Keys) {
    forall n, m :: n in v && m in v ==> v[n].End() != v[m].addr
  }

  /** No extent begins or ends where the range ends or begins. */
  ghost predicate Isolated(v: Keys, r: Ext) {
    forall n :: n in v ==> v[n].End() != r.addr && r.End() != v[n].addr
  }

  lemma OutsideIsUncovered(v: Keys, r: Ext)
    requires Spread(v) && r.size > 0
    ensures Outside(v, r) <==> forall a :: r.Has(a) ==> !Covers(v, a)
  {
    if !Outside(v, r) {
      var n :| n in v && !Apart(v[n], r);
      var a := if v[n].addr > r.addr then v[n].addr else r.addr;
      assert r.Has(a) && v[n].Has(a);
    }
  }

  lemma SpreadWithout(v: Keys, n: Node)
    requires Spread(v)
    ensures Spread(v - {n}) && (Coalesced(v) ==> Coalesced(v - {n}))
  {
    forall p, q | p in v - {n} && q in v - {n} ensures NodesApart(v - {n}, p, q) {
      assert NodesApart(v, p, q);
    }
  }

  /** Node `n` gets an extent that is disjoint from those of the other nodes. */
  lemma SpreadWith(v: Keys, n: Node, e: Ext)
    requires Spread(v) && e.size > 0 && Outside(v - {n}, e)
    ensures Spread(v[n := e])
  {
    var v' := v[n := e];
    forall p, q | p in v' && q in v' ensures NodesApart(v', p, q) {
      if p != n && q != n {
        assert NodesApart(v, p, q);
      }
      if p != n {
        assert p in v - {n};
      }
      if q != n {
        assert q in v - {n};
      }
    }
  }

  lemma CoversWithout(v: Keys, n: Node, a: int)
    requires Spread(v) && n in v
    ensures Covers(v - {n}, a) <==> Covers(v, a) && !v[n].Has(a)
  {
    if Covers(v - {n}, a) {
      var m :| m in v - {n} && (v - {n})[m].Has(a);
      assert m in v && v[m].Has(a);
      TwoNodes(v, m, n);
    } else if Covers(v, a) {
      var m :| m in v && v[m].Has(a);
      assert m != n ==> m in v - {n};
    }
  }

  lemma CoversWith(v: Keys, n: Node, e: Ext, a: int)
    ensures Covers(v[n := e], a) <==> Covers(v - {n}, a) || e.Has(a)
  {
    if Covers(v - {n}, a) {
      var m :| m in v - {n} && (v - {n})[m].Has(a);
      assert m in v[n := e] && v[n := e][m].Has(a);
    }
    if e.Has(a) {
      assert v[n := e][n].Has(a);
    }
    if Covers(v[n := e], a) {
      var m :| m in v[n := e] && v[n := e][m].Has(a);
      assert m != n ==> m in v - {n};
    }
  }

  // --------------------------------------------------------------------------
  // The twin trees
  // --------------------------------------------------------------------------

  /** The nodes' fields and the two trees over them. */
  datatype Trees = Trees(k: Keys, ad: seq<Node>, szad: seq<Node>)

  /** The extents of the nodes in a tree. */
  ghost function Held(k: Keys, t: seq<Node>): Keys
    requires forall n :: n in t ==> n in k
  {
    map n | n in t :: k[n]
  }

  /** The recorded extents. */
  ghost function View(t: Trees): Keys
    requires forall n :: n in t.ad ==> n in t.k
  {
    Held(t.k, t.ad)
  }

  lemma HeldWithout(k: Keys, t: seq<Node>, t': seq<Node>, n: Node)
    requires forall m :: m in t ==> m in k
    requires forall m :: m in t' <==> m in t && m != n
    ensures Held(k, t') == Held(k, t) - {n}
  {
  }

  lemma HeldWith(k: Keys, t: seq<Node>, t': seq<Node>, n: Node, e: Ext)
    requires forall m :: m in t ==> m in k
    requires forall m :: m in t' <==> m in t || m == n
    ensures Held(k[n := e], t') == Held(k, t)[n := e]
  {
  }

  /** Both trees are in order and hold the same nodes, with disjoint extents. */
  ghost predicate Inv(t: Trees) {
    && Sorted(Ad, t.k, t.ad) && Sorted(Szad, t.k, t.szad)
    && (forall n :: n in t.ad <==> n in t.szad)
    && Spread(View(t))
  }

  /** Take a node out of both trees. */
  function Drop(t: Trees, n: Node): Trees
    requires n in t.ad && n in t.szad
  {
    Trees(t.k, Remove(t.ad, n), Remove(t.szad, n))
  }

  lemma DropKeeps(t: Trees, n: Node)
    requires Inv(t) && n in t.ad
    ensures Inv(Drop(t, n)) && View(Drop(t, n)) == View(t) - {n}
  {
    RemoveKeeps(Ad, t.k, t.ad, n);
    RemoveKeeps(Szad, t.k, t.szad, n);
    HeldWithout(t.k, t.ad, Remove(t.ad, n), n);
    SpreadWithout(View(t), n);
  }

  /** Give a node an extent and put it into both trees. */
  function Add(t: Trees, n: Node, e: Ext): Trees
    requires (forall m :: m in t.ad ==> m in t.k) && (forall m :: m in t.szad ==> m in t.k)
  {
    var k := t.k[n := e];
    Trees(k, Insert(Ad, k, t.ad, n), Insert(Szad, k, t.szad, n))
  }

  lemma AddSorts(o: Order, k: Keys, t: seq<Node>, n: Node, e: Ext)
    requires Sorted(o, k, t) && n !in t && e.size > 0
    requires forall m :: m in t ==> k[m].size > 0 && Apart(k[m], e)
    ensures Sorted(o, k[n := e], Insert(o, k[n := e], t, n))
    ensures forall m :: m in Insert(o, k[n := e], t, n) <==> m in t || m == n
  {
    SortedFrame(o, k, k[n := e], t);
    InsertKeeps(o, k[n := e], t, n);
  }

  lemma EachOutside(k: Keys, t: seq<Node>, e: Ext)
    requires (forall m :: m in t ==> m in k) && Spread(Held(k, t)) && Outside(Held(k, t), e)
    ensures forall m :: m in t ==> k[m].size > 0 && Apart(k[m], e)
  {
    forall m | m in t ensures k[m].size > 0 && Apart(k[m], e) {
      assert m in Held(k, t);
    }
  }

  lemma AddBoth(k: Keys, ad: seq<Node>, szad: seq<Node>, n: Node, e: Ext, ad': seq<Node>, szad': seq<Node>)
    requires Sorted(Ad, k, ad) && Sorted(Szad, k, szad) && n !in ad && e.size > 0
    requires (forall m :: m in ad <==> m in szad) && (forall m :: m in ad ==> k[m].size > 0 && Apart(k[m], e))
    requires ad' == Insert(Ad, k[n := e], ad, n) && szad' == Insert(Szad, k[n := e], szad, n)
    ensures Sorted(Ad, k[n := e], ad') && Sorted(Szad, k[n := e], szad')
    ensures (forall m :: m in ad' <==> m in szad') && Held(k[n := e], ad') == Held(k, ad)[n := e]
  {
    AddSorts(Ad, k, ad, n, e);
    AddSorts(Szad, k, szad, n, e);
    HeldWith(k, ad, ad', n, e);
  }

  lemma AddKeeps(t: Trees, n: Node, e: Ext)
    requires Inv(t) && n !in t.ad && e.size > 0 && Outside(View(t), e)
    ensures Inv(Add(t, n, e)) && View(Add(t, n, e)) == View(t)[n := e]
  {
    EachOutside(t.k, t.ad, e);
    assert View(t) - {n} == View(t);
    SpreadWith(View(t), n, e);
    AddBoth(t.k, t.ad, t.szad, n, e, Insert(Ad, t.k[n := e], t.ad, n), Insert(Szad, t.k[n := e], t.szad, n));
  }

  /**
   * Enlarge a node that stays in the address tree: only the size tree is left and
   * entered again.
   */
  function Enlarge(t: Trees, n: Node, e: Ext): Trees
    requires n in t.szad && (forall m :: m in t.szad ==> m in t.k)
  {
    var k := t.k[n := e];
    Trees(k, t.ad, Insert(Szad, k, Remove(t.szad, n), n))
  }

  lemma EnlargeKeeps(t: Trees, n: Node, e: Ext)
    requires Inv(t) && n in t.ad && e.addr <= t.k[n].addr && t.k[n].End() <= e.End()
    requires Outside(View(t) - {n}, e)
    ensures Inv(Enlarge(t, n, e)) && View(Enlarge(t, n, e)) == View(t)[n := e]
  {
    forall m | m in t.ad && m != n ensures t.k[m].size > 0 && Apart(t.k[m], e) {
      assert m in View(t) - {n} && View(t)[m] == t.k[m];
    }
    assert n in View(t);
    AddressOrderSurvives(t, n, e);
    RemoveKeeps(Szad, t.k, t.szad, n);
    AddSorts(Szad, t.k, Remove(t.szad, n), n, e);
    HeldWith(t.k, t.ad, t.ad, n, e);
    SpreadWith(View(t), n, e);
  }

  /** The address tree is still in order under the enlarged node's new key. */
  lemma AddressOrderSurvives(t: Trees, n: Node, e: Ext)
    requires Inv(t) && n in t.ad && e.addr <= t.k[n].addr && t.k[n].End() <= e.End()
    requires forall m :: m in t.ad && m != n ==> Apart(t.k[m], e)
    ensures Sorted(Ad, t.k[n := e], t.ad)
  {
    var k := t.k[n := e];
    forall i, j | 0 <= i < j < |t.ad| ensures Comp(Ad, k[t.ad[i]], k[t.ad[j]]) < 0 {
      var p, q := t.ad[i], t.ad[j];
      assert p in t.ad && q in t.ad && Comp(Ad, t.k[p], t.k[q]) < 0;
      assert p in View(t) && q in View(t);
      TwoNodes(View(t), p, q);
    }
  }

  /** An extent that ends where a node begins is held by the node before it in the tree. */
  lemma NeighbourIsPrev(t: Trees, n: Node, p: Node)
    requires Inv(t) && n in t.ad && p in t.ad && t.k[p].End() == t.k[n].addr
    ensures Prev(t.ad, n) == Some(p)
  {
    var i, j := Position(t.ad, n), Position(t.ad, p);
    assert p in View(t);
    TotalOrder(Ad, t.k[n], t.k[p], t.k[n]);
    assert j < i;
    if j < i - 1 {
      var q := t.ad[i - 1];
      assert q in t.ad && q in View(t);
      assert Comp(Ad, t.k[p], t.k[q]) < 0 && Comp(Ad, t.k[q], t.k[n]) < 0;
      TwoNodes(View(t), p, q);
    }
  }

  // --------------------------------------------------------------------------
  // The coalesced form is canonical
  // --------------------------------------------------------------------------

  /**
   * Two coalesced sets of extents that cover the same addresses are the same: here, each
   * extent of the one is an extent of the other.
   */
  lemma Canonical(v: Keys, u: Keys, n: Node) returns (m: Node)
    requires Spread(v) && Spread(u) && Coalesced(v) && Coalesced(u) && n in v
    requires forall a :: Covers(v, a) <==> Covers(u, a)
    ensures m in u && u[m] == v[n]
  {
    assert v[n].Has(v[n].addr);
    assert Covers(u, v[n].addr);
    m :| m in u && u[m].Has(v[n].addr);
    NotBefore(v, u, n, m);
    NotBefore(u, v, m, n);
    NotAfter(v, u, n, m);
    NotAfter(u, v, m, n);
  }

  /** An extent of `u` cannot reach back beyond one of `v` that it meets. */
  lemma NotBefore(v: Keys, u: Keys, n: Node, m: Node)
    requires Spread(v) && Coalesced(v) && n in v && m in u && v[n].size > 0 && !Apart(v[n], u[m])
    requires forall a :: Covers(v, a) <==> Covers(u, a)
    ensures v[n].addr <= u[m].addr
  {
    var a := v[n].addr - 1;
    if u[m].addr <= a {
      assert u[m].Has(a);
      assert Covers(u, a);
      var p :| p in v && v[p].Has(a);
      TwoNodes(v, p, n);
    }
  }

  lemma NotAfter(v: Keys, u: Keys, n: Node, m: Node)
    requires Spread(v) && Coalesced(v) && n in v && m in u && !Apart(v[n], u[m])
    requires forall a :: Covers(v, a) <==> Covers(u, a)
    ensures u[m].End() <= v[n].End()
  {
    var a := v[n].End();
    if a < u[m].End() {
      assert u[m].Has(a);
      assert Covers(u, a);
      var p :| p in v && v[p].Has(a);
      TwoNodes(v, p, n);
    }
  }

  lemma CanonicalExtents(v: Keys, u: Keys)
    requires Spread(v) && Spread(u) && Coalesced(v) && Coalesced(u)
    requires forall a :: Covers(v, a) <==> Covers(u, a)
    ensures v.Values == u.Values
  {
    forall n | n in v ensures v[n] in u.Values {
      var m := Canonical(v, u, n);
    }
    forall n | n in u ensures u[n] in v.Values {
      var m := Canonical(u, v, n);
    }
  }
}
