/**
 * The shape of the tree bins: bitwise tries over chunk sizes, linked through child
 * and parent words.  The state is a plain value so that every relinking step can be
 * justified by one lemma; class TreeBins performs the steps in place.
 *
 * A node at level k stands for all sizes that agree with its own size above bit k;
 * its children stand for the two halves of that range.
 */
module Trie {
  import opened SizeBits

  type Addr = int

  const NULL: Addr := 0

  /** No node is above this level. */
  const TOP: int := 64

  /** The address of bin header `i`, the parent of a root. */
  function Header(i: nat): Addr {
    -1 - i
  }

  datatype Trie = Trie(
    size: map<Addr, nat>,
    child0: map<Addr, Addr>,
    child1: map<Addr, Addr>,
    parent: map<Addr, Addr>,
    index: map<Addr, nat>,
    roots: seq<Addr>,
    level: map<Addr, nat>)
  {
    predicate HasFields(a: Addr) {
      a in size && a in child0 && a in child1 && a in parent && a in index
    }

    function Child(a: Addr, b: nat): Addr
      requires a in child0 && a in child1
    {
      if b == 0 then child0[a] else child1[a]
    }
  }

  predicate SizeOk(t: Trie, a: Addr) {
    && t.HasFields(a)
    && a > 0
    && 0x100 <= t.size[a] < TWO_40
    && t.index[a] == TreeIndex(t.size[a])
  }

  /** `a` hangs where its size bits say. */
  predicate UpOk(t: Trie, a: Addr)
    requires t.HasFields(a) && a in t.level && |t.roots| == NTREEBINS
  {
    var p := t.parent[a];
    if p < 0 then
      && t.index[a] < NTREEBINS
      && p == Header(t.index[a])
      && t.roots[t.index[a]] == a
      && t.level[a] == TopLevel(t.index[a])
    else
      && p in t.level && t.HasFields(p)
      && t.level[p] == t.level[a] + 1
      && t.index[p] == t.index[a] < NTREEBINS
      && t.level[a] < TopLevel(t.index[a])
      && Prefix(t.size[a], t.level[p]) == Prefix(t.size[p], t.level[p])
      && t.Child(p, Bit(t.size[a], t.level[a])) == a
  }

  predicate ChildOk(t: Trie, a: Addr, b: nat)
    requires t.HasFields(a)
  {
    var c := t.Child(a, b);
    c != NULL ==>
      && c in t.level && t.HasFields(c)
      && t.parent[c] == a
      && Bit(t.size[c], t.level[c]) == b
  }

  predicate NodeOk(t: Trie, a: Addr) {
    && a in t.level && |t.roots| == NTREEBINS
    && SizeOk(t, a)
    && UpOk(t, a)
    && ChildOk(t, a, 0)
    && ChildOk(t, a, 1)
  }

  predicate RootOk(t: Trie, i: nat)
    requires i < |t.roots|
  {
    var r := t.roots[i];
    r != NULL ==> r in t.level && r in t.parent && t.parent[r] == Header(i)
  }

  predicate OneOfSize(t: Trie, a: Addr, b: Addr) {
    a in t.level && b in t.level && a in t.size && b in t.size && t.size[a] == t.size[b] ==> a == b
  }

  /**
   * The trie invariant: path bits match size bits, links agree both ways and no two
   * nodes have one size.
   */
  ghost predicate Inv(t: Trie) {
    && |t.roots| == NTREEBINS
    && (forall i {:trigger RootOk(t, i)} :: 0 <= i < NTREEBINS ==> RootOk(t, i))
    && (forall a {:trigger NodeOk(t, a)} :: a in t.level ==> NodeOk(t, a))
    && (forall a, b {:trigger OneOfSize(t, a, b)} :: OneOfSize(t, a, b))
  }

  /** `y` lies in the subtree rooted at `n`. */
  predicate Under(t: Trie, n: Addr, y: Addr) {
    && n in t.level && y in t.level && t.HasFields(n) && t.HasFields(y)
    && t.index[y] == t.index[n]
    && t.level[y] <= t.level[n]
    && Prefix(t.size[y], t.level[n]) == Prefix(t.size[n], t.level[n])
  }

  // --------------------------------------------------------------------------
  // Consequences of the invariant
  // --------------------------------------------------------------------------

  lemma NodeBin(t: Trie, a: Addr)
    requires Inv(t) && a in t.level
    ensures NodeOk(t, a)
    ensures t.index[a] < NTREEBINS && InBin(t.size[a], t.index[a])
  {
    assert NodeOk(t, a);
    TreeIndexBelow40(t.size[a]);
  }

  /** Two nodes at one level with one prefix are the same node. */
  lemma {:induction false} SameSpot(t: Trie, a: Addr, b: Addr)
    requires Inv(t) && a in t.level && b in t.level && t.HasFields(a) && t.HasFields(b)
    requires t.index[a] == t.index[b] && t.level[a] == t.level[b]
    requires Prefix(t.size[a], t.level[a]) == Prefix(t.size[b], t.level[b])
    ensures a == b
    decreases TOP - t.level[a]
  {
    assert NodeOk(t, a) && NodeOk(t, b);
    NodeBin(t, a);
    if t.parent[a] >= 0 && t.parent[b] >= 0 {
      var p, q, k := t.parent[a], t.parent[b], t.level[a];
      assert NodeOk(t, p) && NodeOk(t, q);
      assert Prefix(t.size[a], k + 1) == Prefix(t.size[b], k + 1);
      SameSpot(t, p, q);
    }
  }

  /** The parent of a proper descendant is still under `n`. */
  lemma ParentUnder(t: Trie, n: Addr, y: Addr)
    requires Inv(t) && Under(t, n, y) && y != n
    ensures t.level[y] < t.level[n]
    ensures var p := t.parent[y];
      p in t.level && Under(t, n, p) && t.level[p] == t.level[y] + 1 && Under(t, p, y)
  {
    assert NodeOk(t, n) && NodeOk(t, y);
    if t.level[y] == t.level[n] {
      SameSpot(t, n, y);
    }
    var p := t.parent[y];
    NodeBin(t, n);
    assert p >= 0;
    assert NodeOk(t, p);
    PrefixWiden(t.size[y], t.size[p], t.level[p], t.level[n]);
  }

  /** Anything strictly under `n` hangs under the child its next bit selects. */
  lemma {:induction false} UnderChild(t: Trie, n: Addr, y: Addr)
    requires Inv(t) && Under(t, n, y) && y != n
    ensures t.level[n] > 0
    ensures var c := t.Child(n, Bit(t.size[y], t.level[n] - 1));
      c != NULL && Under(t, c, y) && t.level[c] == t.level[n] - 1
    decreases t.level[n] - t.level[y]
  {
    ParentUnder(t, n, y);
    assert NodeOk(t, y) && NodeOk(t, n);
    var p := t.parent[y];
    if p != n {
      UnderChild(t, n, p);
      ParentUnder(t, n, p);
      var k := t.level[n] - 1;
      PrefixWiden(t.size[y], t.size[p], t.level[p], k);
      UnderTrans(t, t.Child(n, Bit(t.size[p], k)), p, y);
    }
  }

  /** A child is under its parent. */
  lemma ChildUnder(t: Trie, n: Addr, b: nat)
    requires Inv(t) && n in t.level && t.HasFields(n) && b < 2 && t.Child(n, b) != NULL
    ensures var c := t.Child(n, b);
      && Under(t, n, c) && c != n && t.level[c] + 1 == t.level[n]
      && t.parent[c] == n && Bit(t.size[c], t.level[c]) == b
  {
    assert NodeOk(t, n);
    var c := t.Child(n, b);
    assert NodeOk(t, c);
  }

  lemma UnderTrans(t: Trie, n: Addr, m: Addr, y: Addr)
    requires Under(t, n, m) && Under(t, m, y)
    ensures Under(t, n, y)
  {
    PrefixWiden(t.size[m], t.size[y], t.level[m], t.level[n]);
  }

  /** Everything in a bin is under the bin's root. */
  lemma UnderRoot(t: Trie, y: Addr)
    requires Inv(t) && y in t.level && t.HasFields(y)
    ensures t.index[y] < NTREEBINS
    ensures var r := t.roots[t.index[y]]; r != NULL && Under(t, r, y)
  {
    assert NodeOk(t, y);
    var r := RootAbove(t, y);
  }

  lemma {:induction false} RootAbove(t: Trie, y: Addr) returns (r: Addr)
    requires Inv(t) && y in t.level && t.HasFields(y)
    ensures t.index[y] < NTREEBINS
    ensures r == t.roots[t.index[y]] && r != NULL && Under(t, r, y)
    decreases TOP - t.level[y]
  {
    assert NodeOk(t, y);
    NodeBin(t, y);
    var p := t.parent[y];
    if p < 0 {
      r := y;
    } else {
      assert NodeOk(t, p);
      r := RootAbove(t, p);
      UnderTrans(t, r, p, y);
    }
  }

  /** All left-subtree sizes are below all right-subtree sizes. */
  lemma LeftBelowRight(t: Trie, n: Addr, x: Addr, y: Addr)
    requires Inv(t) && n in t.level && t.HasFields(n)
    requires t.Child(n, 0) != NULL && t.Child(n, 1) != NULL
    requires Under(t, t.Child(n, 0), x) && Under(t, t.Child(n, 1), y)
    ensures t.size[x] < t.size[y]
  {
    ChildUnder(t, n, 0);
    ChildUnder(t, n, 1);
    var l, r := t.Child(n, 0), t.Child(n, 1);
    HalvesOrdered(t.size[l], t.size[r], t.level[n] - 1, t.size[x], t.size[y]);
  }
}
