/**
 * The tree bins in place: insert_large_chunk, unlink_large_chunk and the two searches
 * of tmalloc_large and tmalloc_small.
 */
module TreeBins {
  import opened Basics
  import opened SizeBits
  import opened BinMap
  import opened Trie
  import opened TrieEdit
  import opened TreeChains
  import R = Ring
  import opened TreeSearch

  /** The map bit of a bin is set exactly when the bin has a root. */
  ghost predicate MapOk(treemap: binmap, roots: seq<Addr>) {
    |roots| == NTREEBINS && forall i :: 0 <= i < NTREEBINS ==> (Marked(treemap, i) <==> roots[i] != NULL)
  }

  lemma MarkBin(treemap: binmap, roots: seq<Addr>, i: nat, x: Addr)
    requires MapOk(treemap, roots) && i < NTREEBINS && x != NULL
    ensures MapOk(Mark(treemap, i), roots[i := x])
  {
    forall j | 0 <= j < NTREEBINS ensures Marked(Mark(treemap, i), j) <==> roots[i := x][j] != NULL {
      MarkOne(treemap, i, j);
    }
  }

  lemma ClearBin(treemap: binmap, roots: seq<Addr>, i: nat)
    requires MapOk(treemap, roots) && i < NTREEBINS
    ensures MapOk(Clear(treemap, i), roots[i := NULL])
  {
    forall j | 0 <= j < NTREEBINS ensures Marked(Clear(treemap, i), j) <==> roots[i := NULL][j] != NULL {
      ClearOne(treemap, i, j);
    }
  }

  /** A chunk that joins a chain leaves the trie alone. */
  lemma NewMemberKeeps(t: Trie, t': Trie, x: Addr)
    requires Inv(t) && x !in t.level && t'.HasFields(x)
    requires t'.size == t.size[x := t'.size[x]] && t'.index == t.index[x := t'.index[x]]
    requires t'.child0 == t.child0[x := NULL] && t'.child1 == t.child1[x := NULL]
    requires t'.parent == t.parent[x := NULL] && t'.roots == t.roots && t'.level == t.level
    ensures Inv(t')
  {
    forall a | a in t'.level ensures NodeOk(t', a) {
      assert NodeOk(t, a);
      assert UpOk(t', a);
      assert ChildOk(t, a, 0) && ChildOk(t, a, 1);
      assert ChildOk(t', a, 0) && ChildOk(t', a, 1);
    }
    forall i | 0 <= i < NTREEBINS ensures RootOk(t', i) { assert RootOk(t, i); }
    forall a, b ensures OneOfSize(t', a, b) { assert OneOfSize(t, a, b); }
  }

  /** `x` is put on the chain of another node: only its own words change. */
  function JoinTree(t: Trie, x: Addr, s: nat): Trie {
    Trie(
      t.size[x := s],
      t.child0[x := NULL],
      t.child1[x := NULL],
      t.parent[x := NULL],
      t.index[x := TreeIndex(s)],
      t.roots,
      t.level)
  }

  ghost predicate State(tree: Trie, chain: Chains, treemap: binmap) {
    Inv(tree) && ChainInv(tree, chain) && MapOk(treemap, tree.roots)
  }

  lemma RootInserted(tree: Trie, chain: Chains, treemap: binmap, x: Addr, s: nat)
    requires State(tree, chain, treemap) && x > 0 && x !in tree.size && 0x100 <= s < TWO_40
    requires TreeIndex(s) < NTREEBINS && !Marked(treemap, TreeIndex(s))
    ensures State(HangRoot(tree, x, s), Start(chain, x), Mark(treemap, TreeIndex(s)))
  {
    if x in tree.level { NodeIsOwnRep(tree, chain, x); }
    HangRootKeeps(tree, x, s);
    StartKeeps(tree, HangRoot(tree, x, s), chain, x);
    MarkBin(treemap, tree.roots, TreeIndex(s), x);
  }

  lemma LeafInserted(tree: Trie, chain: Chains, treemap: binmap, t: Addr, b: nat, x: Addr, s: nat)
    requires State(tree, chain, treemap) && x > 0 && x !in tree.size
    requires CanHang(tree, t, b, x, s)
    requires forall y :: y in tree.level ==> y in tree.size && tree.size[y] != s
    ensures State(HangLeaf(tree, t, b, x, s), Start(chain, x), treemap)
  {
    HangLeafKeeps(tree, t, b, x, s);
    assert NodeOk(tree, t);
    var t' := HangLeaf(tree, t, b, x, s);
    forall y | y in tree.size && tree.HasFields(y) && y !in tree.level ensures t'.HasFields(y) && y != t {
    }
    StartKeeps(tree, t', chain, x);
  }

  lemma MemberInserted(tree: Trie, chain: Chains, treemap: binmap, t: Addr, x: Addr)
    requires State(tree, chain, treemap) && x > 0 && x !in tree.size && t in tree.level && t in tree.size
    ensures t in chain.fd && t in chain.ring && chain.ring[t] != []
    ensures State(JoinTree(tree, x, tree.size[t]), Join(chain, t, x), treemap)
  {
    if x in tree.level { NodeIsOwnRep(tree, chain, x); }
    var t' := JoinTree(tree, x, tree.size[t]);
    NewMemberKeeps(tree, t', x);
    JoinKeeps(tree, t', chain, t, x);
  }

  /** Forget the size of a chunk that has left the tree. */
  function Forget(t: Trie, x: Addr): Trie {
    Trie(t.size - {x}, t.child0, t.child1, t.parent, t.index, t.roots, t.level)
  }

  lemma ForgetKeeps(t: Trie, x: Addr)
    requires Inv(t) && x !in t.level
    ensures Inv(Forget(t, x))
  {
    var t' := Forget(t, x);
    forall a | a in t'.level ensures NodeOk(t', a) {
      assert NodeOk(t, a);
      assert UpOk(t', a);
      assert ChildOk(t, a, 0) && ChildOk(t, a, 1);
      assert ChildOk(t', a, 0) && ChildOk(t', a, 1);
    }
    forall i | 0 <= i < NTREEBINS ensures RootOk(t', i) { assert RootOk(t, i); }
    forall a, b ensures OneOfSize(t', a, b) { assert OneOfSize(t, a, b); }
  }

  /** A chunk on a chain leaves. */
  lemma MemberRemoved(tree: Trie, chain: Chains, treemap: binmap, x: Addr, k: nat)
    requires State(tree, chain, treemap) && x in tree.size && x in chain.rep && chain.rep[x] in chain.ring
    requires x in chain.fd && x in chain.bk && chain.rep[x] != x
    requires var s := chain.ring[chain.rep[x]]; |s| >= 2 && k < |s| && s[k] == x
    ensures State(Forget(tree, x), Leave(chain, x, k), treemap)
  {
    assert MemberOk(tree, chain, x);
    ForgetKeeps(tree, x);
    LeaveMember(tree, Forget(tree, x), chain, x, k);
  }

  /** A tree node hands its place to the chunk before it on its chain. */
  lemma NodeHandedOver(tree: Trie, chain: Chains, treemap: binmap, x: Addr)
    requires State(tree, chain, treemap) && x in tree.size && x in chain.rep && chain.rep[x] == x
    requires x in chain.ring && x in chain.fd && x in chain.bk && |chain.ring[x]| >= 2
    ensures x in tree.level && tree.HasFields(x) && tree.index[x] < NTREEBINS && CanReplace(tree, x, chain.bk[x])
    ensures Inv(Substitute(tree, x, chain.bk[x]))
    ensures State(Forget(Substitute(tree, x, chain.bk[x]), x), Leave(chain, x, 0), treemap)
  {
    var r, s := chain.bk[x], chain.ring[x];
    assert MemberOk(tree, chain, x);
    assert RingOk(tree, chain, x);
    NodeBin(tree, x);
    LastOfRing(tree, chain, x);
    forall y | y in tree.level && y != x ensures y in tree.size && tree.size[y] != tree.size[r] {
      NodeIsOwnRep(tree, chain, y);
      assert OneOfSize(tree, x, y);
    }
    SubstituteKeeps(tree, x, r);
    var t' := Substitute(tree, x, r);
    ForgetKeeps(t', x);
    SubstituteMembers(tree, x, r);
    LeaveNode(tree, Forget(t', x), chain, x);
    RootsStay(treemap, tree.roots, tree.index[x], r);
  }

  lemma LastOfRing(tree: Trie, chain: Chains, x: Addr)
    requires ChainInv(tree, chain) && Inv(tree) && x in tree.level && x in tree.size && x in chain.ring && |chain.ring[x]| >= 2
    ensures NodeOk(tree, x) && x in chain.bk
    ensures CanReplace(tree, x, chain.bk[x]) && tree.size[chain.bk[x]] == tree.size[x]
  {
    assert NodeOk(tree, x);
    NodeBin(tree, x);
    assert RingOk(tree, chain, x);
    var s := chain.ring[x];
    assert R.Linked(chain.fd, chain.bk, s, 0);
    var r := s[|s| - 1];
    assert r in s && r != x;
    assert MemberOk(tree, chain, r);
  }

  lemma RootsStay(treemap: binmap, roots: seq<Addr>, i: nat, r: Addr)
    requires MapOk(treemap, roots) && i < NTREEBINS && r != NULL
    ensures roots[i] != NULL ==> MapOk(treemap, roots[i := r])
  {
  }

  /** Substitution touches tree nodes only. */
  lemma SubstituteMembers(tree: Trie, x: Addr, r: Addr)
    requires Inv(tree) && CanReplace(tree, x, r)
    ensures SameMembers(tree, Forget(Substitute(tree, x, r), x), {x, r})
  {
    var t' := Forget(Substitute(tree, x, r), x);
    assert NodeOk(tree, x);
    assert ChildOk(tree, x, 0) && ChildOk(tree, x, 1);
  }

  /** The last chunk of its size, a leaf, goes away. */
  lemma LeafRemoved(tree: Trie, chain: Chains, treemap: binmap, x: Addr)
    requires State(tree, chain, treemap) && x in tree.level && tree.HasFields(x) && tree.index[x] < NTREEBINS
    requires x in chain.ring && |chain.ring[x]| == 1
    requires tree.child0[x] == NULL && tree.child1[x] == NULL
    ensures Inv(CutLeaf(tree, x))
    ensures State(Forget(CutLeaf(tree, x), x), Drop(chain, x),
                  if tree.parent[x] < 0 then Clear(treemap, tree.index[x]) else treemap)
  {
    CutLeafKeeps(tree, x);
    ForgetKeeps(CutLeaf(tree, x), x);
    assert NodeOk(tree, x);
    DropKeeps(tree, Forget(CutLeaf(tree, x), x), chain, x);
    if tree.parent[x] < 0 {
      ClearBin(treemap, tree.roots, tree.index[x]);
    }
  }

  /** Cutting the leaf `r` under `x` and hanging it where `x` was. */
  lemma LeafTakesOver(tree: Trie, chain: Chains, treemap: binmap, x: Addr, r: Addr)
    requires State(tree, chain, treemap) && x in tree.level && tree.HasFields(x) && tree.index[x] < NTREEBINS
    requires x in chain.ring && |chain.ring[x]| == 1
    requires r != x && Under(tree, x, r) && tree.child0[r] == NULL && tree.child1[r] == NULL
    ensures var t1 := CutLeaf(tree, r);
      && Inv(t1) && CanReplace(t1, x, r) && Inv(Substitute(t1, x, r))
      && State(Forget(Substitute(t1, x, r), x), Drop(chain, x), treemap)
  {
    var t1 := CutLeaf(tree, r);
    CutLeafKeeps(tree, r);
    assert NodeOk(tree, x) && NodeOk(tree, r);
    ParentUnder(tree, x, r);
    assert tree.parent[r] >= 0;
    forall y | y in t1.level && y != x ensures y in t1.size && t1.size[y] != t1.size[r] {
      assert NodeOk(tree, y);
      assert OneOfSize(tree, y, r);
    }
    SubstituteKeeps(t1, x, r);
    var t' := Substitute(t1, x, r);
    ForgetKeeps(t', x);
    CutMembers(tree, x, r);
    DropKeeps(tree, Forget(t', x), chain, x);
    RootsStay(treemap, tree.roots, tree.index[x], r);
  }

  lemma CutMembers(tree: Trie, x: Addr, r: Addr)
    requires Inv(tree) && x in tree.level && tree.HasFields(x) && tree.index[x] < NTREEBINS
    requires r != x && Under(tree, x, r) && tree.parent[r] in tree.level
    ensures SameMembers(tree, Forget(Substitute(CutLeaf(tree, r), x, r), x), {x})
  {
    var t' := Forget(Substitute(CutLeaf(tree, r), x, r), x);
    forall y | y in tree.size && y != x && tree.HasFields(y)
      ensures
        && t'.HasFields(y) && t'.size[y] == tree.size[y] && t'.index[y] == tree.index[y]
        && (y in tree.level <==> y in t'.level)
        && (y !in tree.level ==> t'.parent[y] == tree.parent[y] && t'.child0[y] == tree.child0[y] && t'.child1[y] == tree.child1[y])
    {
      CutMember(tree, x, r, y);
    }
  }

  lemma CutMember(tree: Trie, x: Addr, r: Addr, y: Addr)
    requires Inv(tree) && x in tree.level && tree.HasFields(x) && tree.index[x] < NTREEBINS
    requires r != x && Under(tree, x, r) && tree.parent[r] in tree.level
    requires y in tree.size && y != x && tree.HasFields(y)
    ensures var t' := Substitute(CutLeaf(tree, r), x, r);
      && t'.HasFields(y) && t'.size == tree.size && t'.index == tree.index
      && (y in tree.level <==> y in t'.level)
      && (y !in tree.level ==> t'.parent[y] == tree.parent[y] && t'.child0[y] == tree.child0[y] && t'.child1[y] == tree.child1[y])
  {
    assert NodeOk(tree, x);
    assert ChildOk(tree, x, 0) && ChildOk(tree, x, 1);
  }

  /** Which child slot of its parent holds a node that is no root. */
  lemma ParentSlot(tree: Trie, x: Addr)
    requires Inv(tree) && x in tree.level && x in tree.parent && x in tree.index && tree.index[x] < NTREEBINS
    requires x != tree.roots[tree.index[x]]
    ensures x in tree.size && tree.parent[x] > 0 && tree.HasFields(tree.parent[x])
    ensures Bit(tree.size[x], tree.level[x]) == if tree.child0[tree.parent[x]] == x then 0 else 1
  {
    assert NodeOk(tree, x);
    var p := tree.parent[x];
    assert NodeOk(tree, p);
    assert ChildOk(tree, p, 0);
  }

  lemma NodePositive(tree: Trie, a: Addr)
    requires Inv(tree) && a in tree.level
    ensures a > 0
  {
    assert NodeOk(tree, a);
  }

  /** Tree members are told from chain members by their parent word. */
  lemma ParentTells(tree: Trie, chain: Chains, x: Addr)
    requires Inv(tree) && ChainInv(tree, chain) && x in tree.size
    ensures x in tree.parent && x in chain.rep && (tree.parent[x] == NULL <==> chain.rep[x] != x)
  {
    assert MemberOk(tree, chain, x);
    if chain.rep[x] == x {
      assert NodeOk(tree, x);
      if tree.parent[x] >= 0 {
        NodePositive(tree, tree.parent[x]);
      }
    }
  }

  lemma SameValue(m: map<Addr, Addr>, r: Addr, v: Addr)
    ensures r in m && m[r] == v ==> m[r := v] == m
  {
  }

  lemma NotOwnParent(tree: Trie, x: Addr)
    requires Inv(tree) && x in tree.level && x in tree.parent
    ensures tree.parent[x] != x
  {
    assert NodeOk(tree, x);
  }

  /** With no later bin marked, no chunk can fit. */
  lemma NoLaterBin(tree: Trie, nb: nat, leftbits: binmap, y: Addr)
    requires Inv(tree) && 0x100 <= nb < TWO_40 && PathCovers(tree, nb, NULL, NULL, NULL) && leftbits == 0
    requires forall j :: 0 <= j < 32 ==> (Marked(leftbits, j) <==> TreeIndex(nb) < j && tree.roots[j] != NULL)
    requires y in tree.level && y in tree.size
    ensures tree.size[y] < nb
  {
    if nb <= tree.size[y] {
      NodeBin(tree, y);
      NotInBin(tree, nb, y);
      UnderRoot(tree, y);
      TreeIndexMonotone(nb, tree.size[y]);
      PrefixOfZero(tree.index[y]);
    }
  }

  /** The first occupied bin holds the least sizes of all. */
  lemma FirstBinCovers(tree: Trie, nb: nat, i: nat)
    requires Inv(tree) && 0 < nb < 0x100 && i < NTREEBINS && tree.roots[i] != NULL
    requires forall j :: 0 <= j < i ==> tree.roots[j] == NULL
    ensures var t := tree.roots[i];
      && NodeOk(tree, t) && WalkInv(tree, nb, t, tree.size[t] - nb, t)
  {
    var t := tree.roots[i];
    assert RootOk(tree, i);
    assert NodeOk(tree, t);
    NodeBin(tree, t);
    forall y | y in tree.level && y in tree.size && nb <= tree.size[y] ensures InWalk(tree, t, t, y) {
      NodeBin(tree, y);
      UnderRoot(tree, y);
      if tree.index[y] != i {
        BinsOrdered(tree.size[t], i, tree.size[y], tree.index[y]);
      }
    }
    forall z | Under(tree, t, z) ensures nb <= tree.size[z] {
      assert NodeOk(tree, z);
    }
  }

  /** The link words of the binned chunks, and the root pointers of the bins. */
  datatype Words = Words(
    fd: map<Addr, Addr>,
    bk: map<Addr, Addr>,
    child0: map<Addr, Addr>,
    child1: map<Addr, Addr>,
    parent: map<Addr, Addr>,
    index: map<Addr, nat>,
    roots: seq<Addr>)

  /** The chunks held with their sizes, and where they sit. */
  datatype Shape = Shape(
    size: map<Addr, nat>,
    level: map<Addr, nat>,
    ring: map<Addr, seq<Addr>>,
    rep: map<Addr, Addr>)

  function TreeOf(w: Words, g: Shape): Trie {
    Trie(g.size, w.child0, w.child1, w.parent, w.index, w.roots, g.level)
  }

  function ChainOf(w: Words, g: Shape): Chains {
    Chains(w.fd, w.bk, g.ring, g.rep)
  }

  class TreeBins {
    var treemap: binmap
    var w: Words
    ghost var g: Shape

    ghost function Tree(): Trie
      reads this
    {
      TreeOf(w, g)
    }

    ghost function Chain(): Chains
      reads this
    {
      ChainOf(w, g)
    }

    ghost predicate Valid()
      reads this
    {
      State(Tree(), Chain(), treemap)
    }

    /** The chunks held, with their sizes. */
    ghost function Contents(): map<Addr, nat>
      reads this
    {
      g.size
    }

    /** The head words in memory agree with the sizes of the chunks held. */
    ghost predicate Heads(chunksize: map<Addr, nat>)
      reads this
    {
      forall a :: a in g.size ==> a in chunksize && chunksize[a] == g.size[a]
    }

    /** With a zero map the tree bins are empty; chunks held are large. */
    lemma MapTells(x: Addr)
      requires Valid() && x in Contents()
      ensures treemap != 0
      ensures x > 0 && 0x100 <= Contents()[x] < TWO_40
    {
      assert MemberOk(Tree(), Chain(), x);
      var a := g.rep[x];
      assert NodeOk(Tree(), a);
      UnderRoot(Tree(), a);
      if treemap == 0 {
        PrefixOfZero(w.index[a]);
      }
    }

    constructor ()
      ensures Valid() && Contents() == map[] && treemap == 0
    {
      treemap := 0;
      w := Words(map[], map[], map[], map[], map[], map[], seq(NTREEBINS, _ => NULL));
      g := Shape(map[], map[], map[], map[]);
      new;
      forall i | 0 <= i < NTREEBINS ensures !Marked(treemap, i) { PrefixOfZero(i); }
    }

    // ------------------------------------------------------------------------
    // Insertion
    // ------------------------------------------------------------------------

    /**
     * The descent of insert_large_chunk: stop at the node of size `s`, or at a node whose
     * child slot for the next bit of `s` is empty.  Each step resolves one more bit.
     */
    method Descend(chunksize: map<Addr, nat>, s: nat) returns (t: Addr, b: nat)
      requires Valid() && Heads(chunksize) && 0x100 <= s < TWO_40
      requires TreeIndex(s) < NTREEBINS && w.roots[TreeIndex(s)] != NULL
      ensures t in g.level && Tree().HasFields(t)
      ensures g.size[t] != s ==>
        && g.level[t] > 0 && b == Bit(s, g.level[t] - 1) && Tree().Child(t, b) == NULL
        && w.index[t] == TreeIndex(s) && Prefix(s, g.level[t]) == Prefix(g.size[t], g.level[t])
        && forall y :: y in g.level ==> y in g.size && g.size[y] != s
    {
      ghost var tree := Tree();
      var i := TreeIndex(s);
      t := w.roots[i];
      var k := ShiftLeft(s, LeftShift(i));
      b := 0;
      RootOnPath(tree, s);
      while chunksize[t] != s
        invariant tree == Tree() && OnPath(tree, t, s)
        invariant k == ShiftLeft(s, 64 - g.level[t])
        decreases g.level[t]
      {
        PathStep(tree, t, s);
        ShiftExposesBit(s, 64 - g.level[t]);
        b := TopBit(k);
        k := ShiftLeft1(k);
        var c := if b == 0 then w.child0[t] else w.child1[t];
        if c == NULL {
          return;
        }
        t := c;
      }
    }

    /** The part of bin_find for large sizes. */
    method Find(chunksize: map<Addr, nat>, x: Addr, s: nat) returns (found: bool)
      requires Valid() && Heads(chunksize) && 0x100 <= s < TWO_40
      ensures found <==> x in Contents() && Contents()[x] == s
    {
      TreeIndexBelow40(s);
      if x in Contents() && Contents()[x] == s {
        MemberBin(x);
      }
      found := false;
      if Marked(treemap, TreeIndex(s)) {
        var t, _ := Descend(chunksize, s);
        NodeIsOwnRep(Tree(), Chain(), t);
        assert RingOk(Tree(), Chain(), t);
        if chunksize[t] == s {
          RingOfSize(t, x);
          found := R.Search(w.fd, w.bk, g.ring[t], t, x);
        }
      }
    }

    lemma MemberBin(x: Addr)
      requires Valid() && x in Contents()
      ensures var s := Contents()[x]; TreeIndex(s) < NTREEBINS && Marked(treemap, TreeIndex(s))
      ensures exists y :: y in g.level && y in g.size && g.size[y] == Contents()[x]
    {
      assert MemberOk(Tree(), Chain(), x);
      var a := g.rep[x];
      assert NodeOk(Tree(), a);
      NodeBin(Tree(), a);
      UnderRoot(Tree(), a);
    }

    /** The ring of a tree node holds exactly the chunks of its size. */
    lemma RingOfSize(t: Addr, x: Addr)
      requires Valid() && t in g.level && t in g.size && t in g.ring
      ensures x in g.ring[t] <==> x in Contents() && Contents()[x] == g.size[t]
    {
      assert RingOk(Tree(), Chain(), t);
      if x in g.ring[t] {
        assert MemberOk(Tree(), Chain(), x);
      }
      if x in Contents() && Contents()[x] == g.size[t] {
        assert MemberOk(Tree(), Chain(), x);
        NodeIsOwnRep(Tree(), Chain(), g.rep[x]);
        assert OneOfSize(Tree(), t, g.rep[x]);
      }
    }

    /**
     * insert_large_chunk: the chunk joins the bins and everything else stays.
     */
    method InsertLarge(chunksize: map<Addr, nat>, x: Addr, s: nat)
      requires Valid() && Heads(chunksize)
      requires x > 0 && x !in Contents() && 0x100 <= s < TWO_40
      modifies this
      ensures Valid() && Contents() == old(Contents())[x := s]
    {
      var i := TreeIndex(s);
      TreeIndexBelow40(s);
      assert x !in g.level by { if x in g.level { NodeIsOwnRep(Tree(), Chain(), x); } }
      if !Marked(treemap, i) {
        InsertRoot(x, s);
      } else {
        var t, b := Descend(chunksize, s);
        NodeIsOwnRep(Tree(), Chain(), t);
        if chunksize[t] != s {
          InsertLeaf(t, b, x, s);
        } else {
          InsertMember(t, x);
        }
      }
    }

    /** The branch of insert_large_chunk for an empty bin. */
    method InsertRoot(x: Addr, s: nat)
      requires Valid() && x > 0 && x !in Contents() && 0x100 <= s < TWO_40
      requires TreeIndex(s) < NTREEBINS && !Marked(treemap, TreeIndex(s))
      modifies this
      ensures Valid() && Contents() == old(Contents())[x := s]
    {
      ghost var tree, chain := HangRoot(Tree(), x, s), Start(Chain(), x);
      RootInserted(Tree(), Chain(), treemap, x, s);
      var i := TreeIndex(s);
      treemap := Mark(treemap, i);
      w := w.(roots := w.roots[i := x], index := w.index[x := i], parent := w.parent[x := Header(i)]);
      w := w.(child0 := w.child0[x := NULL], child1 := w.child1[x := NULL], fd := w.fd[x := x], bk := w.bk[x := x]);
      g := Shape(tree.size, tree.level, chain.ring, chain.rep);
      assert Tree() == tree && Chain() == chain;
    }

    /** The branch for an empty child slot. */
    method InsertLeaf(t: Addr, b: nat, x: Addr, s: nat)
      requires Valid() && x > 0 && x !in Contents() && CanHang(Tree(), t, b, x, s)
      requires forall y :: y in g.level ==> y in g.size && g.size[y] != s
      modifies this
      ensures Valid() && Contents() == old(Contents())[x := s]
    {
      ghost var tree, chain := HangLeaf(Tree(), t, b, x, s), Start(Chain(), x);
      LeafInserted(Tree(), Chain(), treemap, t, b, x, s);
      w := w.(index := w.index[x := TreeIndex(s)], child0 := w.child0[x := NULL], child1 := w.child1[x := NULL]);
      if b == 0 {
        w := w.(child0 := w.child0[t := x]);
      } else {
        w := w.(child1 := w.child1[t := x]);
      }
      w := w.(parent := w.parent[x := t], fd := w.fd[x := x], bk := w.bk[x := x]);
      g := Shape(tree.size, tree.level, chain.ring, chain.rep);
      assert Tree() == tree && Chain() == chain;
    }

    /** The branch for a size that is already in the tree. */
    method InsertMember(t: Addr, x: Addr)
      requires Valid() && x > 0 && x !in Contents() && t in g.level && t in Contents()
      modifies this
      ensures Valid() && Contents() == old(Contents())[x := old(Contents())[t]]
    {
      ghost var tree := JoinTree(Tree(), x, g.size[t]);
      MemberInserted(Tree(), Chain(), treemap, t, x);
      ghost var chain := Join(Chain(), t, x);
      assert MemberOk(Tree(), Chain(), t);
      var f := w.fd[t];
      w := w.(index := w.index[x := w.index[t]], child0 := w.child0[x := NULL], child1 := w.child1[x := NULL]);
      w := w.(fd := w.fd[t := x], bk := w.bk[f := x]);
      w := w.(fd := w.fd[x := f], bk := w.bk[x := t], parent := w.parent[x := NULL]);
      g := Shape(tree.size, tree.level, chain.ring, chain.rep);
      assert Tree() == tree && Chain() == chain;
    }

    // ------------------------------------------------------------------------
    // Removal
    // ------------------------------------------------------------------------

    /**
     * The leaf that replaces `x`: follow right children, or left ones where there is no
     * right, to the end.  `p` and `b` say which child slot holds the leaf; it may be one
     * of `x` itself.
     */
    method LeafBelow(x: Addr) returns (r: Addr, p: Addr, b: nat)
      requires Valid() && x in g.level && Tree().HasFields(x)
      ensures r == NULL <==> w.child0[x] == NULL && w.child1[x] == NULL
      ensures r != NULL ==>
        && r != x && r in g.level && Tree().HasFields(r) && Under(Tree(), x, r)
        && w.child0[r] == NULL && w.child1[r] == NULL
        && p == w.parent[r] && p in g.level && b < 2 && b == Bit(g.size[r], g.level[r])
    {
      ghost var tree := Tree();
      assert NodeOk(tree, x);
      p, b, r := x, 1, w.child1[x];
      if r == NULL {
        b, r := 0, w.child0[x];
      }
      if r == NULL {
        return;
      }
      ChildUnder(tree, x, b);
      assert NodeOk(tree, r);
      while w.child1[r] != NULL || w.child0[r] != NULL
        invariant tree == Tree() && r != NULL && NodeOk(tree, r) && r != x && Under(tree, x, r)
        invariant p == w.parent[r] && p in g.level && b < 2 && b == Bit(g.size[r], g.level[r])
        decreases g.level[r]
      {
        p, b := r, if w.child1[r] != NULL then 1 else 0;
        ChildUnder(tree, r, b);
        UnderTrans(tree, x, r, tree.Child(r, b));
        r := if w.child1[r] != NULL then w.child1[r] else w.child0[r];
        assert NodeOk(tree, r);
      }
    }

    /** Redirect the link to node `x` to `r`; an emptied bin loses its map bit. */
    method Redirect(x: Addr, r: Addr)
      requires Inv(Tree()) && x in g.level && Tree().HasFields(x) && w.index[x] < NTREEBINS
      modifies this
      ensures var t := old(Tree());
        var p, b := t.parent[x], Bit(t.size[x], t.level[x]);
        && g == old(g) && w.fd == old(w.fd) && w.bk == old(w.bk) && w.parent == t.parent && w.index == t.index
        && w.child0 == (if p >= 0 && b == 0 then t.child0[p := r] else t.child0)
        && w.child1 == (if p >= 0 && b == 1 then t.child1[p := r] else t.child1)
        && w.roots == (if p < 0 then t.roots[t.index[x] := r] else t.roots)
        && treemap == if r == NULL && p < 0 then Clear(old(treemap), t.index[x]) else old(treemap)
    {
      ghost var tree := Tree();
      assert NodeOk(tree, x);
      var xp := w.parent[x];
      if x == w.roots[w.index[x]] {
        assert RootOk(tree, w.index[x]);
        w := w.(roots := w.roots[w.index[x] := r]);
        if r == NULL {
          treemap := Clear(treemap, w.index[x]);
        }
      } else {
        ParentSlot(tree, x);
        if w.child0[xp] == x {
          w := w.(child0 := w.child0[xp := r]);
        } else {
          w := w.(child1 := w.child1[xp := r]);
        }
      }
    }

    /** The leaf `x`, last of its size, disappears. */
    method RemoveLeaf(x: Addr)
      requires Valid() && x in g.level && Tree().HasFields(x) && x in g.ring && |g.ring[x]| == 1
      requires w.child0[x] == NULL && w.child1[x] == NULL
      modifies this
      ensures Valid() && Contents() == old(Contents()) - {x}
    {
      ghost var tree, chain := Tree(), Chain();
      NodeBin(tree, x);
      LeafRemoved(tree, chain, treemap, x);
      Redirect(x, NULL);
      g := Shape(g.size - {x}, g.level - {x}, g.ring - {x}, g.rep - {x});
      assert Tree() == Forget(CutLeaf(tree, x), x);
      assert Chain() == Drop(chain, x);
    }

    /** `r` takes the place of node `x`: its parent link, then its children. */
    method TakePlace(x: Addr, r: Addr)
      requires Inv(Tree()) && x in g.level && Tree().HasFields(x) && w.index[x] < NTREEBINS
      requires r != NULL && CanReplace(Tree(), x, r)
      modifies this
      ensures Tree() == Substitute(old(Tree()), x, r)
      ensures Chain() == old(Chain()) && treemap == old(treemap)
    {
      ghost var tree := Tree();
      assert NodeOk(tree, x);
      var xp := w.parent[x];
      Redirect(x, r);
      NotOwnParent(tree, x);
      w := w.(parent := w.parent[r := xp]);
      TakeChildren(x, r);
      g := g.(level := (g.level - {x})[r := g.level[x]]);
    }

    /** The children of `x`, if any, become those of the leaf `r`. */
    method TakeChildren(x: Addr, r: Addr)
      requires x in w.child0 && x in w.child1 && r in w.child0 && r in w.child1
      requires w.child0[r] == w.child1[r] == NULL || x == r
      modifies this`w
      ensures w == old(w).(child0 := old(w).child0[r := old(w).child0[x]], child1 := old(w).child1[r := old(w).child1[x]],
        parent := TrieEdit.Adopt(TrieEdit.Adopt(old(w).parent, r, old(w).child0[x]), r, old(w).child1[x]))
    {
      var c0, c1 := w.child0[x], w.child1[x];
      SameValue(w.child0, r, c0);
      SameValue(w.child1, r, c1);
      if c0 != NULL {
        w := w.(child0 := w.child0[r := c0], parent := w.parent[c0 := r]);
      }
      if c1 != NULL {
        w := w.(child1 := w.child1[r := c1], parent := w.parent[c1 := r]);
      }
    }

    /** `x` leaves a chain of several. */
    method UnlinkChained(x: Addr)
      requires Valid() && x in Contents() && x in w.bk && w.bk[x] != x
      modifies this
      ensures Valid() && Contents() == old(Contents()) - {x}
    {
      ghost var tree, chain := Tree(), Chain();
      ghost var k := PlaceInRing(tree, chain, x);
      assert MemberOk(tree, chain, x);
      ParentTells(tree, chain, x);
      var xp, f, r := w.parent[x], w.fd[x], w.bk[x];
      w := w.(bk := w.bk[f := r]);
      w := w.(fd := w.fd[r := f]);
      if xp != NULL {
        NodeHandedOver(tree, chain, treemap, x);
        assert Tree() == tree;
        TakePlace(x, r);
      } else {
        MemberRemoved(tree, chain, treemap, x, k);
      }
      ghost var chain' := Leave(chain, x, k);
      g := Shape(g.size - {x}, g.level, chain'.ring, chain'.rep);
      assert Chain() == chain';
    }

    /** `x`, the last of its size but no leaf, is replaced by a leaf below it. */
    method ReplaceByLeaf(x: Addr, r: Addr, p: Addr, b: nat)
      requires Valid() && x in g.level && Tree().HasFields(x) && x in g.ring && |g.ring[x]| == 1
      requires r != NULL && r != x && Tree().HasFields(r) && Under(Tree(), x, r)
      requires w.child0[r] == NULL && w.child1[r] == NULL
      requires p == w.parent[r] && p in g.level && b < 2 && b == Bit(g.size[r], g.level[r])
      modifies this
      ensures Valid() && Contents() == old(Contents()) - {x}
    {
      ghost var tree, chain := Tree(), Chain();
      NodeBin(tree, x);
      NodePositive(tree, p);
      LeafTakesOver(tree, chain, treemap, x, r);
      w := if b == 0 then w.(child0 := w.child0[p := NULL]) else w.(child1 := w.child1[p := NULL]);
      g := g.(level := g.level - {r});
      assert Tree() == CutLeaf(tree, r);
      TakePlace(x, r);
      g := Shape(g.size - {x}, g.level, g.ring - {x}, g.rep - {x});
      assert Chain() == Drop(chain, x);
    }

    /**
     * unlink_large_chunk: the chunk leaves the bins and everything else stays.
     */
    method UnlinkLarge(x: Addr)
      requires Valid() && x in Contents()
      modifies this
      ensures Valid() && Contents() == old(Contents()) - {x}
    {
      ghost var tree, chain := Tree(), Chain();
      ghost var k := PlaceInRing(tree, chain, x);
      if w.bk[x] != x {
        UnlinkChained(x);
      } else {
        assert MemberOk(tree, chain, x);
        var r, p, b := LeafBelow(x);
        if r != NULL {
          ReplaceByLeaf(x, r, p, b);
        } else {
          RemoveLeaf(x);
        }
      }
    }

    // ------------------------------------------------------------------------
    // Searches
    // ------------------------------------------------------------------------

    /** The chunk found is a tree node of least size among all chunks held that fit. */
    ghost predicate IsBestFit(nb: nat, v: Addr)
      reads this
    {
      if v == NULL then forall y :: y in Contents() ==> Contents()[y] < nb
      else
        && v in Contents() && nb <= Contents()[v]
        && forall y :: y in Contents() && nb <= Contents()[y] ==> Contents()[v] <= Contents()[y]
    }

    /** A best fit among tree nodes is one among all chunks, chains included. */
    lemma BestOfAll(nb: nat, v: Addr, rsize: nat)
      requires Valid() && BestFit(Tree(), nb, v) && Best(Tree(), nb, v, rsize)
      ensures IsBestFit(nb, v)
    {
      ghost var tree, chain := Tree(), Chain();
      forall y | y in Contents() && nb <= Contents()[y]
        ensures v != NULL && v in Contents() && Contents()[v] <= Contents()[y]
      {
        assert MemberOk(tree, chain, y);
        var a := chain.rep[y];
        assert a in tree.level && a in tree.size && nb <= tree.size[a];
      }
    }

    /**
     * The descent of tmalloc_large along the bits of `nb`.  It remembers the best chunk met
     * and the deepest untaken right subtree, which is where the search goes on.
     */
    method DescendForFit(chunksize: map<Addr, nat>, nb: nat, root: Addr) returns (v: Addr, rsize: nat, t: Addr)
      requires Valid() && Heads(chunksize) && 0x100 <= nb < TWO_64
      requires TreeIndex(nb) < NTREEBINS && root == w.roots[TreeIndex(nb)] != NULL
      ensures t != NULL || v != NULL ==> WalkInv(Tree(), nb, v, rsize, t)
      ensures t == NULL && v == NULL ==> rsize == Sub64(0, nb) && (nb < TWO_40 ==> PathCovers(Tree(), nb, NULL, NULL, NULL))
    {
      ghost var tree := Tree();
      PathStart(tree, nb, root);
      v, rsize, t := NULL, Sub64(0, nb), root;
      var k := ShiftLeft(nb, LeftShift(TreeIndex(nb)));
      var rst := NULL;
      while true
        invariant tree == Tree() && PathInv(tree, nb, v, rsize, t, rst, k) && (v == NULL || rsize != 0)
        decreases g.level[t]
      {
        NodeIsOwnRep(tree, Chain(), t);
        PathVisit(tree, nb, v, rsize, t, rst, k);
        var trem := Sub64(chunksize[t], nb);
        if trem < rsize {
          v, rsize := t, trem;
          if rsize == 0 {
            ExactFit(tree, nb, v, t);
            return;
          }
        }
        PathDown(tree, nb, v, rsize, t, rst, k);
        var rt := w.child1[t];
        t := if TopBit(k) == 0 then w.child0[t] else w.child1[t];
        if rt != NULL && rt != t {
          rst := rt;
        }
        if t == NULL {
          t := rst;
          if v != NULL || rst != NULL {
            WalkFromPath(tree, nb, v, rsize, rst);
          }
          return;
        }
        k := ShiftLeft1(k);
      }
    }

    /** The walk to the least chunk of a subtree: left children, or right where there is no left. */
    method WalkToLeast(chunksize: map<Addr, nat>, nb: nat, v0: Addr, rsize0: nat, t0: Addr) returns (v: Addr, rsize: nat)
      requires Valid() && Heads(chunksize) && 0 < nb < TWO_64 && WalkInv(Tree(), nb, v0, rsize0, t0)
      ensures IsBestFit(nb, v)
      ensures v != NULL ==> rsize == Contents()[v] - nb
      ensures v0 != NULL || (t0 != NULL && nb < 0x100) ==> v != NULL
    {
      ghost var tree := Tree();
      v, rsize := v0, rsize0;
      var t := t0;
      while t != NULL
        invariant tree == Tree() && WalkInv(tree, nb, v, rsize, t)
        invariant v0 != NULL ==> v != NULL
        invariant t0 != NULL && nb < 0x100 ==> v != NULL || t != NULL
        decreases t != NULL, if t != NULL then g.level[t] else 0
      {
        NodeIsOwnRep(tree, Chain(), t);
        WalkVisit(tree, nb, v, rsize, t);
        WrapComparesFits(tree, nb, v, rsize, t);
        var trem := Sub64(chunksize[t], nb);
        if trem < rsize {
          rsize, v := trem, t;
        }
        t := if w.child0[t] != NULL then w.child0[t] else w.child1[t];
      }
      WalkEnds(tree, nb, v, rsize);
      BestOfAll(nb, v, rsize);
    }

    /**
     * The search of tmalloc_large: a best fit among all chunks of the tree bins.
     */
    method FindBestFit(chunksize: map<Addr, nat>, nb: nat) returns (v: Addr, rsize: nat)
      requires Valid() && Heads(chunksize) && 0x100 <= nb < TWO_64
      ensures IsBestFit(nb, v)
      ensures v != NULL ==> rsize == Contents()[v] - nb
    {
      v, rsize := NULL, Sub64(0, nb);
      TreeIndexExact(nb);
      var idx := TreeIndex(nb);
      var t := w.roots[idx];
      if t != NULL {
        v, rsize, t := DescendForFit(chunksize, nb, t);
      } else {
        PathStart(Tree(), nb, t);
      }
      if t == NULL && v == NULL {
        t := NextTree(nb, idx);
      }
      v, rsize := WalkToLeast(chunksize, nb, v, rsize, t);
    }

    /**
     * The search of tmalloc_small, for a request below every tree chunk: the least chunk of
     * the first occupied bin is the least of all.
     */
    method FindLeast(chunksize: map<Addr, nat>, nb: nat) returns (v: Addr, rsize: nat)
      requires Valid() && Heads(chunksize) && 0 < nb < 0x100 && treemap != 0
      ensures v != NULL && v in Contents() && rsize == Contents()[v] - nb
      ensures forall y :: y in Contents() ==> Contents()[v] <= Contents()[y]
    {
      ghost var tree := Tree();
      LeastMarked(treemap);
      var i := Bit2Idx(LeastBit(treemap));
      var t := w.roots[i];
      assert RootOk(tree, i);
      assert NodeOk(tree, t);
      NodeIsOwnRep(tree, Chain(), t);
      v, rsize := t, chunksize[t] - nb;
      FirstBinCovers(tree, nb, i);
      WalkVisit(tree, nb, v, rsize, t);
      t := if w.child0[t] != NULL then w.child0[t] else w.child1[t];
      v, rsize := WalkToLeast(chunksize, nb, v, rsize, t);
      forall y | y in Contents() ensures Contents()[v] <= Contents()[y] {
        assert MemberOk(tree, Chain(), y);
        assert NodeOk(tree, Chain().rep[y]);
      }
    }

    /** The root of the next non-empty bin after `idx`, found through the bin map. */
    method NextTree(nb: nat, idx: nat) returns (t: Addr)
      requires Valid() && 0x100 <= nb < TWO_64 && idx == TreeIndex(nb) < NTREEBINS
      requires nb < TWO_40 ==> PathCovers(Tree(), nb, NULL, NULL, NULL)
      ensures WalkInv(Tree(), nb, NULL, Sub64(0, nb), t)
    {
      ghost var tree := Tree();
      var leftbits := AndMap(LeftBits(Idx2Bit(idx)), treemap);
      forall j | 0 <= j < 32 ensures Marked(leftbits, j) <==> idx < j && w.roots[j] != NULL {
        LeftBitsAreLaterBins(treemap, idx, j);
      }
      if leftbits != 0 {
        LeastMarked(leftbits);
        var i := Bit2Idx(LeastBit(leftbits));
        t := w.roots[i];
        assert RootOk(tree, i);
        assert NodeOk(tree, t);
        if nb < TWO_40 {
          NextBinCovers(tree, nb, i);
        }
      } else {
        t := NULL;
        if nb < TWO_40 {
          forall y | y in tree.level && y in tree.size ensures tree.size[y] < nb {
            NoLaterBin(tree, nb, leftbits, y);
          }
        }
      }
    }
  }
}
