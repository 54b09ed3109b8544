/**
 * Why the searches of the tree bins find a best fit: every chunk that fits is either no
 * better than the best seen so far, or still lies ahead of the search.
 */
module TreeSearch {
  import opened Basics
  import opened SizeBits
  import opened Trie

  /** `t` is on the path that the bits of `s` select, and a node of size `s` can only be below it. */
  ghost predicate OnPath(tree: Trie, t: Addr, s: nat) {
    && NodeOk(tree, t) && tree.index[t] == TreeIndex(s) && tree.level[t] <= 64
    && Prefix(s, tree.level[t]) == Prefix(tree.size[t], tree.level[t])
    && forall y {:trigger Under(tree, t, y)} :: y in tree.level && y in tree.size && tree.size[y] == s ==> Under(tree, t, y)
  }

  lemma RootOnPath(tree: Trie, s: nat)
    requires Inv(tree) && 0x100 <= s < TWO_40 && TreeIndex(s) < NTREEBINS && tree.roots[TreeIndex(s)] != NULL
    ensures OnPath(tree, tree.roots[TreeIndex(s)], s)
    ensures tree.level[tree.roots[TreeIndex(s)]] == TopLevel(TreeIndex(s))
  {
    var i := TreeIndex(s);
    var t := tree.roots[i];
    assert RootOk(tree, i) && NodeOk(tree, t);
    TreeIndexBelow40(s);
    NodeBin(tree, t);
    SameBinSamePrefix(s, tree.size[t], i);
    forall y | y in tree.level && y in tree.size && tree.size[y] == s ensures Under(tree, t, y) {
      assert NodeOk(tree, y);
      UnderRoot(tree, y);
    }
  }

  lemma PathStep(tree: Trie, t: Addr, s: nat)
    requires Inv(tree) && OnPath(tree, t, s) && tree.size[t] != s
    ensures tree.level[t] > 0
    ensures var c := tree.Child(t, Bit(s, tree.level[t] - 1));
      if c == NULL then forall y :: y in tree.level ==> y in tree.size && tree.size[y] != s
      else OnPath(tree, c, s) && tree.level[c] == tree.level[t] - 1
  {
    var b := Bit(s, tree.level[t] - 1);
    var c := tree.Child(t, b);
    forall y | y in tree.level && y in tree.size && tree.size[y] == s ensures c != NULL && Under(tree, c, y) {
      assert Under(tree, t, y);
      UnderChild(tree, t, y);
    }
    if c == NULL {
      forall y | y in tree.level ensures y in tree.size && tree.size[y] != s { assert NodeOk(tree, y); }
    } else {
      ChildUnder(tree, t, b);
      assert NodeOk(tree, c);
    }
  }

  // --------------------------------------------------------------------------
  // The search of tmalloc_large
  // --------------------------------------------------------------------------

  /** leftmost_child. */
  function LeftmostChild(tree: Trie, t: Addr): Addr
    requires tree.HasFields(t)
  {
    if tree.child0[t] != NULL then tree.child0[t] else tree.child1[t]
  }

  /** One step of the leftmost walk loses nothing smaller than the next node. */
  lemma LeftmostStep(tree: Trie, t: Addr, y: Addr)
    requires Inv(tree) && Under(tree, t, y) && y != t
    ensures var c := LeftmostChild(tree, t);
      c != NULL && c in tree.level && c in tree.size && tree.level[c] < tree.level[t] && (Under(tree, c, y) || tree.size[c] <= tree.size[y])
  {
    UnderChild(tree, t, y);
    assert NodeOk(tree, t);
    var b := Bit(tree.size[y], tree.level[t] - 1);
    var c := LeftmostChild(tree, t);
    ChildUnder(tree, t, b);
    ChildUnder(tree, t, if tree.child0[t] != NULL then 0 else 1);
    if tree.child0[t] != NULL && b == 1 {
      LeftBelowRight(tree, t, c, y);
    }
  }

  /** `rst` is an untaken right subtree: it lies above the path of `nb`. */
  predicate RightOf(tree: Trie, nb: nat, rst: Addr, k: nat) {
    rst != NULL ==>
      && NodeOk(tree, rst) && tree.index[rst] == TreeIndex(nb) && k <= tree.level[rst]
      && Prefix(nb, tree.level[rst]) < Prefix(tree.size[rst], tree.level[rst])
  }

  /** Nothing that fits `nb` and is smaller than `v` hides outside `t` and `rst`. */
  predicate Pending(tree: Trie, v: Addr, t: Addr, rst: Addr, y: Addr) {
    y in tree.size &&
    (|| (v != NULL && v in tree.size && tree.size[v] <= tree.size[y])
     || Under(tree, t, y)
     || (rst != NULL && rst in tree.size && (Under(tree, rst, y) || tree.size[rst] <= tree.size[y])))
  }

  ghost predicate PathCovers(tree: Trie, nb: nat, v: Addr, t: Addr, rst: Addr) {
    forall y {:trigger Pending(tree, v, t, rst, y)} ::
      y in tree.level && y in tree.size && y in tree.index && tree.index[y] == TreeIndex(nb) && nb <= tree.size[y]
      ==> Pending(tree, v, t, rst, y)
  }

  /** `v` is the best candidate seen and `rsize` its remainder, or -nb before any. */
  predicate Best(tree: Trie, nb: nat, v: Addr, rsize: nat) {
    if v == NULL then rsize == Sub64(0, nb)
    else v in tree.level && v in tree.size && nb <= tree.size[v] < TWO_40 && rsize == tree.size[v] - nb
  }

  /** Comparing remainders with wrap-around compares fits: a chunk below `nb` never wins. */
  lemma WrapComparesFits(tree: Trie, nb: nat, v: Addr, rsize: nat, t: Addr)
    requires Best(tree, nb, v, rsize) && t in tree.level && t in tree.size && tree.size[t] < TWO_40 && 0 < nb < TWO_64
    ensures var trem := Sub64(tree.size[t], nb);
      trem < rsize <==> nb <= tree.size[t] && (v == NULL || tree.size[t] < tree.size[v])
    ensures nb <= tree.size[t] ==> Sub64(tree.size[t], nb) == tree.size[t] - nb
  {
    var size := tree.size[t];
    if size < nb {
      assert Sub64(size, nb) == TWO_64 - (nb - size);
    }
    assert Sub64(0, nb) == TWO_64 - nb;
  }

  /** One descent step: everything pending stays pending. */
  lemma PathStepCovers(tree: Trie, nb: nat, v: Addr, t: Addr, rst: Addr)
    requires Inv(tree) && OnPathOf(tree, t, nb) && RightOf(tree, nb, rst, tree.level[t])
    requires PathCovers(tree, nb, v, t, rst)
    requires nb <= tree.size[t] ==> v != NULL && v in tree.size && tree.size[v] <= tree.size[t]
    requires tree.size[t] != nb
    ensures tree.level[t] > 0
    ensures var k := tree.level[t] - 1;
      var c, rt := tree.Child(t, Bit(nb, k)), tree.child1[t];
      var rst' := if rt != NULL && rt != c then rt else rst;
      && RightOf(tree, nb, rst', k)
      && PathCovers(tree, nb, v, c, rst')
      && (c != NULL ==> OnPathOf(tree, c, nb) && tree.level[c] == k)
  {
    var k := tree.level[t] - 1;
    var b := Bit(nb, k);
    var c, rt := tree.Child(t, b), tree.child1[t];
    var rst' := if rt != NULL && rt != c then rt else rst;
    assert ChildOk(tree, t, 0) && ChildOk(tree, t, 1);
    if c != NULL {
      ChildUnder(tree, t, b);
      assert NodeOk(tree, c);
    }
    if rt != NULL {
      ChildUnder(tree, t, 1);
      assert NodeOk(tree, rt);
    }
    assert rst' == rt != NULL ==> b == 0;
    forall y | y in tree.level && y in tree.size && y in tree.index && tree.index[y] == TreeIndex(nb) && nb <= tree.size[y]
      ensures Pending(tree, v, c, rst', y)
    {
      assert Pending(tree, v, t, rst, y);
      PendingStep(tree, nb, v, t, rst, y);
    }
  }

  /** `t` is a node of the bin of `nb` whose range contains `nb`. */
  predicate OnPathOf(tree: Trie, t: Addr, nb: nat) {
    && NodeOk(tree, t) && tree.index[t] == TreeIndex(nb) && tree.level[t] <= 64
    && Prefix(nb, tree.level[t]) == Prefix(tree.size[t], tree.level[t])
  }

  lemma PendingStep(tree: Trie, nb: nat, v: Addr, t: Addr, rst: Addr, y: Addr)
    requires Inv(tree) && OnPathOf(tree, t, nb) && RightOf(tree, nb, rst, tree.level[t])
    requires nb <= tree.size[t] ==> v != NULL && v in tree.size && tree.size[v] <= tree.size[t]
    requires tree.level[t] > 0 && y in tree.size && nb <= tree.size[y]
    requires Pending(tree, v, t, rst, y)
    ensures var c, rt := tree.Child(t, Bit(nb, tree.level[t] - 1)), tree.child1[t];
      Pending(tree, v, c, if rt != NULL && rt != c then rt else rst, y)
  {
    var k := tree.level[t] - 1;
    var c, rt := tree.Child(t, Bit(nb, k)), tree.child1[t];
    if Under(tree, t, y) {
      if y != t {
        UnderChild(tree, t, y);
        assert Prefix(tree.size[y], k + 1) == Prefix(nb, k + 1);
        if Bit(tree.size[y], k) < Bit(nb, k) {
          PrefixReflectsOrder(tree.size[y], nb, k);
        }
      }
    } else if rst != NULL && rt != NULL && rt != c && (Under(tree, rst, y) || tree.size[rst] <= tree.size[y]) {
      ChildUnder(tree, t, 1);
      NewerIsSmaller(tree, nb, t, rst, rt);
      if Under(tree, rst, y) {
        PrefixReflectsOrder(tree.size[rt], tree.size[y], tree.level[rst]);
      }
    }
  }

  /** A node under the path is smaller than an untaken right subtree met before. */
  lemma NewerIsSmaller(tree: Trie, nb: nat, t: Addr, rst: Addr, z: Addr)
    requires OnPathOf(tree, t, nb) && rst != NULL && RightOf(tree, nb, rst, tree.level[t]) && Under(tree, t, z)
    ensures Prefix(tree.size[z], tree.level[rst]) < Prefix(tree.size[rst], tree.level[rst])
    ensures tree.size[z] < tree.size[rst]
  {
    PrefixWiden(tree.size[z], nb, tree.level[t], tree.level[rst]);
    PrefixReflectsOrder(tree.size[z], tree.size[rst], tree.level[rst]);
  }

  // --------------------------------------------------------------------------
  // The walk to the least chunk of a subtree
  // --------------------------------------------------------------------------

  /** Everything under `t` fits `nb`. */
  ghost predicate AllFit(tree: Trie, nb: nat, t: Addr) {
    forall z {:trigger Under(tree, t, z)} :: Under(tree, t, z) ==> nb <= tree.size[z]
  }

  predicate InWalk(tree: Trie, v: Addr, t: Addr, y: Addr) {
    y in tree.size &&
    (|| (v != NULL && v in tree.size && tree.size[v] <= tree.size[y])
     || (t != NULL && t in tree.size && (Under(tree, t, y) || tree.size[t] <= tree.size[y])))
  }

  ghost predicate WalkCovers(tree: Trie, nb: nat, v: Addr, t: Addr) {
    forall y {:trigger InWalk(tree, v, t, y)} ::
      y in tree.level && y in tree.size && nb <= tree.size[y] ==> InWalk(tree, v, t, y)
  }

  /** After visiting `t`, the walk continues at its leftmost child. */
  lemma WalkStep(tree: Trie, nb: nat, v: Addr, t: Addr)
    requires Inv(tree) && t != NULL && NodeOk(tree, t) && WalkCovers(tree, nb, v, t)
    requires v != NULL && v in tree.size && tree.size[v] <= tree.size[t]
    ensures var c := LeftmostChild(tree, t);
      && WalkCovers(tree, nb, v, c)
      && (c != NULL ==> NodeOk(tree, c) && tree.level[c] < tree.level[t])
      && (c != NULL && AllFit(tree, nb, t) ==> AllFit(tree, nb, c))
  {
    var c := LeftmostChild(tree, t);
    if c != NULL {
      ChildUnder(tree, t, if tree.child0[t] != NULL then 0 else 1);
      assert NodeOk(tree, c);
      if AllFit(tree, nb, t) {
        forall z | Under(tree, c, z) ensures nb <= tree.size[z] {
          UnderTrans(tree, t, c, z);
        }
      }
    }
    forall y | y in tree.level && y in tree.size && nb <= tree.size[y] ensures InWalk(tree, v, c, y) {
      assert InWalk(tree, v, t, y);
      if Under(tree, t, y) && y != t {
        LeftmostStep(tree, t, y);
      }
    }
  }

  /** When the path ends, the deepest untaken right subtree holds the least sizes above `nb`. */
  lemma PathEnds(tree: Trie, nb: nat, v: Addr, rst: Addr, k: nat)
    requires Inv(tree) && 0x100 <= nb < TWO_40 && PathCovers(tree, nb, v, NULL, rst) && RightOf(tree, nb, rst, k)
    requires v != NULL || rst != NULL
    requires v != NULL ==> NodeOk(tree, v) && tree.index[v] == TreeIndex(nb)
    ensures WalkCovers(tree, nb, v, rst)
    ensures rst != NULL ==> AllFit(tree, nb, rst)
  {
    if rst != NULL {
      forall z | Under(tree, rst, z) ensures nb <= tree.size[z] {
        PrefixReflectsOrder(nb, tree.size[z], tree.level[rst]);
      }
    }
    forall y | y in tree.level && y in tree.size && nb <= tree.size[y] ensures InWalk(tree, v, rst, y) {
      NodeBin(tree, y);
      TreeIndexMonotone(nb, tree.size[y]);
      if tree.index[y] == TreeIndex(nb) {
        assert Pending(tree, v, NULL, rst, y);
        NullIsNoNode(tree);
      } else {
        var w := if v != NULL then v else rst;
        NodeBin(tree, w);
        BinsOrdered(tree.size[w], tree.index[w], tree.size[y], tree.index[y]);
      }
    }
  }

  /** An exact fit ends the search wherever the walk goes on. */
  lemma ExactFit(tree: Trie, nb: nat, v: Addr, t: Addr)
    requires v != NULL && v in tree.size && tree.size[v] == nb
    ensures WalkCovers(tree, nb, v, t)
  {
  }

  /** No chunk of the bin of `nb` fits: the next occupied bin holds the least fitting sizes. */
  lemma NextBinCovers(tree: Trie, nb: nat, i: nat)
    requires Inv(tree) && 0x100 <= nb < TWO_40 && PathCovers(tree, nb, NULL, NULL, NULL)
    requires TreeIndex(nb) < i < NTREEBINS && tree.roots[i] != NULL
    requires forall j :: TreeIndex(nb) < j < i ==> tree.roots[j] == NULL
    ensures NodeOk(tree, tree.roots[i]) && WalkCovers(tree, nb, NULL, tree.roots[i]) && AllFit(tree, nb, tree.roots[i])
  {
    var r := tree.roots[i];
    assert RootOk(tree, i);
    assert NodeOk(tree, r);
    NodeBin(tree, r);
    TreeIndexBelow40(nb);
    forall z | Under(tree, r, z) ensures nb <= tree.size[z] {
      NodeBin(tree, z);
      BinsOrdered(nb, TreeIndex(nb), tree.size[z], tree.index[z]);
    }
    forall y | y in tree.level && y in tree.size && nb <= tree.size[y] ensures InWalk(tree, NULL, r, y) {
      NodeBin(tree, y);
      NotInBin(tree, nb, y);
      UnderRoot(tree, y);
      TreeIndexMonotone(nb, tree.size[y]);
      if tree.index[y] > i {
        BinsOrdered(tree.size[r], i, tree.size[y], tree.index[y]);
      }
    }
  }

  lemma NodeNotNull(tree: Trie, a: Addr)
    requires Inv(tree) && a in tree.level
    ensures a != NULL
  {
    assert NodeOk(tree, a);
  }

  lemma NullIsNoNode(tree: Trie)
    requires Inv(tree)
    ensures NULL !in tree.level
  {
    if NULL in tree.level {
      NodeNotNull(tree, NULL);
    }
  }

  lemma NotInBin(tree: Trie, nb: nat, y: Addr)
    requires Inv(tree) && PathCovers(tree, nb, NULL, NULL, NULL)
    requires y in tree.level && y in tree.size && y in tree.index && nb <= tree.size[y]
    ensures tree.index[y] != TreeIndex(nb)
  {
    if tree.index[y] == TreeIndex(nb) {
      assert Pending(tree, NULL, NULL, NULL, y);
      NullIsNoNode(tree);
    }
  }

  // --------------------------------------------------------------------------
  // Loop invariants of the searches
  // --------------------------------------------------------------------------

  /** What holds at each node of the first loop; a request of 2^40 bytes or more finds nothing. */
  ghost predicate PathInv(tree: Trie, nb: nat, v: Addr, rsize: nat, t: Addr, rst: Addr, k: nat) {
    && Best(tree, nb, v, rsize) && NodeOk(tree, t) && (rst != NULL ==> NodeOk(tree, rst)) && k < TWO_64
    && (v != NULL ==> NodeOk(tree, v) && tree.index[v] == TreeIndex(nb))
    && (nb < TWO_40 ==>
        && OnPathOf(tree, t, nb) && RightOf(tree, nb, rst, tree.level[t])
        && PathCovers(tree, nb, v, t, rst) && k == ShiftLeft(nb, 64 - tree.level[t]))
  }

  /** What holds at each node of the second loop. */
  ghost predicate WalkInv(tree: Trie, nb: nat, v: Addr, rsize: nat, t: Addr) {
    && Best(tree, nb, v, rsize)
    && (t != NULL ==> NodeOk(tree, t))
    && (nb < TWO_40 ==> WalkCovers(tree, nb, v, t) && (t != NULL ==> rsize == 0 || AllFit(tree, nb, t)))
  }

  /** `v` is a best fit for `nb` among all tree nodes, or there is none. */
  ghost predicate BestFit(tree: Trie, nb: nat, v: Addr) {
    forall y :: y in tree.level && y in tree.size && nb <= tree.size[y] ==>
      v != NULL && v in tree.size && tree.size[v] <= tree.size[y]
  }

  lemma PathStart(tree: Trie, nb: nat, t: Addr)
    requires Inv(tree) && 0x100 <= nb < TWO_64 && TreeIndex(nb) < NTREEBINS && t == tree.roots[TreeIndex(nb)]
    ensures t != NULL ==> PathInv(tree, nb, NULL, Sub64(0, nb), t, NULL, ShiftLeft(nb, LeftShift(TreeIndex(nb))))
    ensures t == NULL && nb < TWO_40 ==> PathCovers(tree, nb, NULL, NULL, NULL)
  {
    var i := TreeIndex(nb);
    if t != NULL {
      assert RootOk(tree, i);
      assert NodeOk(tree, t);
      ShiftBounded(nb, LeftShift(i));
    }
    if nb < TWO_40 {
      if t != NULL {
        RootOnPath(tree, nb);
      }
      forall y | y in tree.level && y in tree.size && y in tree.index && tree.index[y] == i && nb <= tree.size[y]
        ensures Pending(tree, NULL, t, NULL, y)
      {
        assert NodeOk(tree, y);
        UnderRoot(tree, y);
      }
    }
  }

  lemma ShiftBounded(s: nat, n: nat)
    ensures ShiftLeft(s, n) < TWO_64
  {
  }

  /** Visiting `t` in the first loop updates the best candidate. */
  lemma PathVisit(tree: Trie, nb: nat, v: Addr, rsize: nat, t: Addr, rst: Addr, k: nat)
    requires Inv(tree) && 0x100 <= nb < TWO_64 && PathInv(tree, nb, v, rsize, t, rst, k)
    ensures var trem := Sub64(tree.size[t], nb);
      && (trem < rsize ==> PathInv(tree, nb, t, trem, t, rst, k) && nb <= tree.size[t])
      && (trem >= rsize ==> nb <= tree.size[t] ==> v != NULL && tree.size[v] <= tree.size[t])
  {
    WrapComparesFits(tree, nb, v, rsize, t);
    if Sub64(tree.size[t], nb) < rsize && nb < TWO_40 {
      forall y | y in tree.level && y in tree.size && y in tree.index && tree.index[y] == TreeIndex(nb) && nb <= tree.size[y]
        ensures Pending(tree, t, t, rst, y)
      {
        assert Pending(tree, v, t, rst, y);
      }
    }
  }

  /** Going one level down in the first loop. */
  lemma PathDown(tree: Trie, nb: nat, v: Addr, rsize: nat, t: Addr, rst: Addr, k: nat)
    requires Inv(tree) && 0x100 <= nb < TWO_64 && PathInv(tree, nb, v, rsize, t, rst, k) && (v == NULL || rsize != 0)
    requires nb <= tree.size[t] ==> v != NULL && tree.size[v] <= tree.size[t]
    ensures var c, rt := tree.Child(t, TopBit(k)), tree.child1[t];
      var rst' := if rt != NULL && rt != c then rt else rst;
      && (c != NULL ==> PathInv(tree, nb, v, rsize, c, rst', ShiftLeft1(k)) && tree.level[c] < tree.level[t])
      && (rst' != NULL ==> NodeOk(tree, rst'))
      && (c == NULL && nb < TWO_40 ==> PathCovers(tree, nb, v, NULL, rst') && RightOf(tree, nb, rst', 0))
  {
    ChildBelow(tree, t, TopBit(k));
    ChildBelow(tree, t, 1);
    if nb < TWO_40 {
      PathDownCovers(tree, nb, v, t, rst, k);
    }
  }

  /** Below the limit the bit inspected is the next bit of the request. */
  lemma PathDownCovers(tree: Trie, nb: nat, v: Addr, t: Addr, rst: Addr, k: nat)
    requires Inv(tree) && 0x100 <= nb < TWO_40 && OnPathOf(tree, t, nb) && RightOf(tree, nb, rst, tree.level[t])
    requires PathCovers(tree, nb, v, t, rst) && k == ShiftLeft(nb, 64 - tree.level[t])
    requires nb <= tree.size[t] ==> v != NULL && v in tree.size && tree.size[v] <= tree.size[t]
    requires tree.size[t] != nb
    ensures var c, rt := tree.Child(t, TopBit(k)), tree.child1[t];
      var rst' := if rt != NULL && rt != c then rt else rst;
      && tree.level[t] > 0 && RightOf(tree, nb, rst', tree.level[t] - 1) && PathCovers(tree, nb, v, c, rst')
      && (c != NULL ==> OnPathOf(tree, c, nb) && tree.level[c] == tree.level[t] - 1)
      && ShiftLeft1(k) == ShiftLeft(nb, 64 - (tree.level[t] - 1))
  {
    PathStepCovers(tree, nb, v, t, rst);
    ShiftExposesBit(nb, 64 - tree.level[t]);
  }

  lemma ChildBelow(tree: Trie, t: Addr, b: nat)
    requires Inv(tree) && NodeOk(tree, t) && b < 2
    ensures tree.Child(t, b) != NULL ==> NodeOk(tree, tree.Child(t, b)) && tree.level[tree.Child(t, b)] < tree.level[t]
  {
    assert ChildOk(tree, t, b);
    if tree.Child(t, b) != NULL {
      ChildUnder(tree, t, b);
    }
  }

  /** From the end of the first loop into the second. */
  lemma WalkFromPath(tree: Trie, nb: nat, v: Addr, rsize: nat, rst: Addr)
    requires Inv(tree) && 0x100 <= nb < TWO_64 && Best(tree, nb, v, rsize)
    requires rst != NULL ==> NodeOk(tree, rst)
    requires v != NULL ==> NodeOk(tree, v) && tree.index[v] == TreeIndex(nb)
    requires nb < TWO_40 ==> PathCovers(tree, nb, v, NULL, rst) && RightOf(tree, nb, rst, 0)
    requires v != NULL || rst != NULL
    ensures WalkInv(tree, nb, v, rsize, rst)
  {
    if nb < TWO_40 {
      PathEnds(tree, nb, v, rst, 0);
    }
  }

  /** Visiting a node in the second loop and moving to its leftmost child. */
  lemma WalkVisit(tree: Trie, nb: nat, v: Addr, rsize: nat, t: Addr)
    requires Inv(tree) && 0 < nb < TWO_64 && WalkInv(tree, nb, v, rsize, t) && t != NULL
    ensures var trem := Sub64(tree.size[t], nb);
      var v', rsize' := if trem < rsize then t else v, if trem < rsize then trem else rsize;
      var c := LeftmostChild(tree, t);
      && WalkInv(tree, nb, v', rsize', c)
      && (c != NULL ==> tree.level[c] < tree.level[t])
  {
    var trem := Sub64(tree.size[t], nb);
    var v', rsize' := if trem < rsize then t else v, if trem < rsize then trem else rsize;
    WrapComparesFits(tree, nb, v, rsize, t);
    var c := LeftmostChild(tree, t);
    if c != NULL {
      ChildUnder(tree, t, if tree.child0[t] != NULL then 0 else 1);
      assert NodeOk(tree, c);
    }
    if nb < TWO_40 {
      if rsize == 0 {
        ExactFit(tree, nb, v, c);
      } else {
        assert Under(tree, t, t);
        forall y | y in tree.level && y in tree.size && nb <= tree.size[y] ensures InWalk(tree, v', t, y) {
          assert InWalk(tree, v, t, y);
        }
        WalkStep(tree, nb, v', t);
      }
    }
  }

  lemma WalkEnds(tree: Trie, nb: nat, v: Addr, rsize: nat)
    requires Inv(tree) && WalkInv(tree, nb, v, rsize, NULL)
    ensures BestFit(tree, nb, v)
  {
    forall y | y in tree.level && y in tree.size && nb <= tree.size[y]
      ensures v != NULL && v in tree.size && tree.size[v] <= tree.size[y]
    {
      assert NodeOk(tree, y);
      assert InWalk(tree, v, NULL, y);
    }
  }
}
