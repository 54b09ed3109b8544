/**
 * Relinking steps on the size tries: hanging a new leaf, cutting a leaf, and letting one
 * chunk take another's place.  insert_large_chunk and unlink_large_chunk are sequences of
 * these steps.
 */
module TrieEdit {
  import opened SizeBits
  import opened Trie

  /** The first chunk of its bin. */
  function HangRoot(t: Trie, x: Addr, s: nat): Trie
    requires |t.roots| == NTREEBINS && TreeIndex(s) < NTREEBINS
  {
    var i := TreeIndex(s);
    Trie(
      t.size[x := s],
      t.child0[x := NULL],
      t.child1[x := NULL],
      t.parent[x := Header(i)],
      t.index[x := i],
      t.roots[i := x],
      t.level[x := TopLevel(i)])
  }

  lemma HangRootKeeps(t: Trie, x: Addr, s: nat)
    requires Inv(t) && x > 0 && x !in t.level && 0x100 <= s < TWO_40
    requires TreeIndex(s) < NTREEBINS && t.roots[TreeIndex(s)] == NULL
    ensures Inv(HangRoot(t, x, s))
  {
    var t', i := HangRoot(t, x, s), TreeIndex(s);
    forall a | a in t'.level
      ensures NodeOk(t', a)
    {
      HangRootNode(t, x, s, a);
    }
    forall a, b ensures OneOfSize(t', a, b) {
      if a in t.level && b in t.level {
        assert OneOfSize(t, a, b);
      } else if a in t.level {
        HangRootNode(t, x, s, a);
      } else if b in t.level {
        HangRootNode(t, x, s, b);
      }
    }
    forall j | 0 <= j < NTREEBINS ensures RootOk(t', j) {
      assert RootOk(t, j);
    }
  }

  lemma HangRootNode(t: Trie, x: Addr, s: nat, a: Addr)
    requires Inv(t) && x > 0 && x !in t.level && 0x100 <= s < TWO_40
    requires TreeIndex(s) < NTREEBINS && t.roots[TreeIndex(s)] == NULL
    requires a in t.level || a == x
    ensures NodeOk(HangRoot(t, x, s), a)
    ensures a != x ==> a in t.size && t.size[a] != s
  {
    if a != x {
      assert NodeOk(t, a);
      UnderRoot(t, a);
      assert t.index[a] != TreeIndex(s);
    }
  }

  /** `x` becomes child `b` of `p`. */
  function HangLeaf(t: Trie, p: Addr, b: nat, x: Addr, s: nat): Trie
    requires p in t.level && t.level[p] > 0
  {
    Trie(
      t.size[x := s],
      if b == 0 then t.child0[x := NULL][p := x] else t.child0[x := NULL],
      if b == 0 then t.child1[x := NULL] else t.child1[x := NULL][p := x],
      t.parent[x := p],
      t.index[x := TreeIndex(s)],
      t.roots,
      t.level[x := t.level[p] - 1])
  }

  predicate CanHang(t: Trie, p: Addr, b: nat, x: Addr, s: nat) {
    && p in t.level && t.HasFields(p) && t.level[p] > 0
    && x > 0 && x !in t.level && 0x100 <= s < TWO_40
    && TreeIndex(s) == t.index[p]
    && Prefix(s, t.level[p]) == Prefix(t.size[p], t.level[p])
    && b == Bit(s, t.level[p] - 1)
    && t.Child(p, b) == NULL
  }

  lemma HangLeafKeeps(t: Trie, p: Addr, b: nat, x: Addr, s: nat)
    requires Inv(t) && CanHang(t, p, b, x, s)
    requires forall y :: y in t.level ==> y in t.size && t.size[y] != s
    ensures Inv(HangLeaf(t, p, b, x, s))
  {
    var t' := HangLeaf(t, p, b, x, s);
    assert NodeOk(t, p);
    NodeBin(t, p);
    forall a | a in t'.level
      ensures NodeOk(t', a)
    {
      if a != x {
        HangLeafNode(t, p, b, x, s, a);
      } else {
        HangLeafNew(t, p, b, x, s);
      }
    }
    forall c, d ensures OneOfSize(t', c, d) {
      assert OneOfSize(t, c, d);
    }
    forall j | 0 <= j < NTREEBINS ensures RootOk(t', j) {
      assert RootOk(t, j);
    }
  }

  lemma HangLeafNew(t: Trie, p: Addr, b: nat, x: Addr, s: nat)
    requires Inv(t) && CanHang(t, p, b, x, s)
    ensures NodeOk(HangLeaf(t, p, b, x, s), x)
  {
    assert NodeOk(t, p);
    NodeBin(t, p);
  }

  lemma HangLeafNode(t: Trie, p: Addr, b: nat, x: Addr, s: nat, a: Addr)
    requires Inv(t) && CanHang(t, p, b, x, s) && a in t.level
    ensures NodeOk(HangLeaf(t, p, b, x, s), a)
  {
    var t' := HangLeaf(t, p, b, x, s);
    assert NodeOk(t, a) && NodeOk(t, p);
    HangLeafUp(t, p, b, x, s, a);
    assert ChildOk(t, a, 0) && ChildOk(t, a, 1);
    assert ChildOk(t', a, 0) && ChildOk(t', a, 1);
  }

  lemma HangLeafUp(t: Trie, p: Addr, b: nat, x: Addr, s: nat, a: Addr)
    requires NodeOk(t, a) && NodeOk(t, p) && CanHang(t, p, b, x, s) && a in t.level
    ensures var t' := HangLeaf(t, p, b, x, s); t'.HasFields(a) && UpOk(t', a)
  {
    if t.parent[a] == p {
      assert t.Child(p, Bit(t.size[a], t.level[a])) == a;
    }
  }

  /** Cut a leaf off: clear the link that leads to it. */
  function CutLeaf(t: Trie, r: Addr): Trie
    requires t.HasFields(r) && r in t.level && |t.roots| == NTREEBINS && t.index[r] < NTREEBINS
  {
    var p, b := t.parent[r], Bit(t.size[r], t.level[r]);
    Trie(
      t.size,
      if p >= 0 && b == 0 then t.child0[p := NULL] else t.child0,
      if p >= 0 && b == 1 then t.child1[p := NULL] else t.child1,
      t.parent,
      t.index,
      if p < 0 then t.roots[t.index[r] := NULL] else t.roots,
      t.level - {r})
  }

  lemma CutLeafKeeps(t: Trie, r: Addr)
    requires Inv(t) && r in t.level && t.HasFields(r) && t.index[r] < NTREEBINS
    requires t.child0[r] == NULL && t.child1[r] == NULL
    ensures Inv(CutLeaf(t, r))
  {
    var t' := CutLeaf(t, r);
    assert NodeOk(t, r);
    forall a | a in t'.level
      ensures NodeOk(t', a)
    {
      CutLeafNode(t, r, a);
    }
    forall c, d ensures OneOfSize(t', c, d) {
      assert OneOfSize(t, c, d);
    }
    forall j | 0 <= j < NTREEBINS ensures RootOk(t', j) {
      assert RootOk(t, j);
      if t.roots[j] == r {
        assert t.parent[r] == Header(j);
      }
    }
  }

  lemma CutLeafNode(t: Trie, r: Addr, a: Addr)
    requires Inv(t) && r in t.level && t.HasFields(r) && t.index[r] < NTREEBINS
    requires t.child0[r] == NULL && t.child1[r] == NULL
    requires a in t.level && a != r
    ensures NodeOk(CutLeaf(t, r), a)
  {
    var t' := CutLeaf(t, r);
    assert NodeOk(t, a) && NodeOk(t, r);
    var q := t.parent[a];
    if q >= 0 {
      assert q != r;
      assert t.Child(q, Bit(t.size[a], t.level[a])) == a;
    }
    assert UpOk(t', a);
    assert ChildOk(t, a, 0) && ChildOk(t, a, 1);
    assert ChildOk(t', a, 0) && ChildOk(t', a, 1);
  }

  /** `r` becomes the parent of `c`, if there is such a child. */
  function Adopt(parent: map<Addr, Addr>, r: Addr, c: Addr): map<Addr, Addr> {
    if c == NULL then parent else parent[c := r]
  }

  /** `r` takes the place of node `x`. */
  function Substitute(t: Trie, x: Addr, r: Addr): Trie
    requires t.HasFields(x) && x in t.level && |t.roots| == NTREEBINS && t.index[x] < NTREEBINS
  {
    var p, b := t.parent[x], Bit(t.size[x], t.level[x]);
    Trie(
      t.size,
      (if p >= 0 && b == 0 then t.child0[p := r] else t.child0)[r := t.child0[x]],
      (if p >= 0 && b == 1 then t.child1[p := r] else t.child1)[r := t.child1[x]],
      Adopt(Adopt(t.parent[r := p], r, t.child0[x]), r, t.child1[x]),
      t.index,
      if p < 0 then t.roots[t.index[x] := r] else t.roots,
      (t.level - {x})[r := t.level[x]])
  }

  predicate CanReplace(t: Trie, x: Addr, r: Addr) {
    && x in t.level && t.HasFields(x) && r !in t.level && SizeOk(t, r)
    && t.child0[r] == NULL && t.child1[r] == NULL
    && t.index[r] == t.index[x] < NTREEBINS
    && Prefix(t.size[r], t.level[x]) == Prefix(t.size[x], t.level[x])
  }

  lemma SubstituteKeeps(t: Trie, x: Addr, r: Addr)
    requires Inv(t) && CanReplace(t, x, r)
    requires forall y :: y in t.level && y != x ==> y in t.size && t.size[y] != t.size[r]
    ensures Inv(Substitute(t, x, r))
  {
    var t' := Substitute(t, x, r);
    assert NodeOk(t, x);
    forall a | a in t'.level
      ensures NodeOk(t', a)
    {
      if a == r {
        SubstituteSelf(t, x, r);
      } else {
        SubstituteNode(t, x, r, a);
      }
    }
    forall c, d ensures OneOfSize(t', c, d) {
      assert OneOfSize(t, c, d);
    }
    forall j | 0 <= j < NTREEBINS ensures RootOk(t', j) {
      SubstituteRoot(t, x, r, j);
    }
  }

  lemma SubstituteRoot(t: Trie, x: Addr, r: Addr, j: nat)
    requires Inv(t) && CanReplace(t, x, r) && j < NTREEBINS
    ensures |Substitute(t, x, r).roots| == NTREEBINS && RootOk(Substitute(t, x, r), j)
  {
    assert RootOk(t, j);
    assert NodeOk(t, x);
    var q := t.roots[j];
    if q != NULL && q != x {
      SubstituteFields(t, x, r, q, 0);
    }
  }

  lemma SubstituteSelf(t: Trie, x: Addr, r: Addr)
    requires Inv(t) && CanReplace(t, x, r)
    ensures NodeOk(Substitute(t, x, r), r)
  {
    var t' := Substitute(t, x, r);
    assert NodeOk(t, x);
    var k := t.level[x];
    var p := t.parent[x];
    if p >= 0 {
      assert NodeOk(t, p);
      assert Prefix(t.size[r], k + 1) == Prefix(t.size[x], k + 1);
      assert Bit(t.size[r], k) == Bit(t.size[x], k);
    }
    assert UpOk(t', r);
    assert ChildOk(t, x, 0) && ChildOk(t, x, 1);
    assert ChildOk(t', r, 0) && ChildOk(t', r, 1);
  }

  /** The substituted links, field by field. */
  lemma SubstituteFields(t: Trie, x: Addr, r: Addr, a: Addr, b: nat)
    requires Inv(t) && CanReplace(t, x, r) && a in t.level && a != x && b < 2
    ensures var t' := Substitute(t, x, r);
      && NodeOk(t, a) && NodeOk(t, x)
      && t'.HasFields(a) && t'.HasFields(r)
      && t'.size == t.size && t'.index == t.index
      && t'.Child(a, b) == (if t.Child(a, b) == x then r else t.Child(a, b))
      && t'.Child(r, b) == t.Child(x, b)
      && t'.parent[a] == (if t.parent[a] == x then r else t.parent[a])
      && (t.parent[a] < 0 ==> t'.roots[t.index[a]] == a)
  {
    assert NodeOk(t, a) && NodeOk(t, x);
    assert ChildOk(t, x, 0) && ChildOk(t, x, 1);
    assert ChildOk(t, a, b);
    if t.parent[a] == x {
      assert t.Child(x, Bit(t.size[a], t.level[a])) == a;
    }
  }

  lemma SubstituteNode(t: Trie, x: Addr, r: Addr, a: Addr)
    requires Inv(t) && CanReplace(t, x, r) && a in t.level && a != x
    ensures NodeOk(Substitute(t, x, r), a)
  {
    SubstituteUp(t, x, r, a);
    SubstituteChild(t, x, r, a, 0);
    SubstituteChild(t, x, r, a, 1);
    assert NodeOk(t, a);
  }

  lemma SubstituteUp(t: Trie, x: Addr, r: Addr, a: Addr)
    requires Inv(t) && CanReplace(t, x, r) && a in t.level && a != x
    ensures var t' := Substitute(t, x, r);
      a in t'.level && |t'.roots| == NTREEBINS && t'.HasFields(a) && UpOk(t', a)
  {
    assert NodeOk(t, a);
    var q, b := t.parent[a], Bit(t.size[a], t.level[a]);
    SubstituteFields(t, x, r, a, b);
    if q >= 0 && q != x {
      SubstituteFields(t, x, r, q, b);
    }
  }

  lemma SubstituteChild(t: Trie, x: Addr, r: Addr, a: Addr, b: nat)
    requires Inv(t) && CanReplace(t, x, r) && a in t.level && a != x && b < 2
    ensures var t' := Substitute(t, x, r);
      t'.HasFields(a) && ChildOk(t', a, b)
  {
    SubstituteFields(t, x, r, a, b);
    var c := t.Child(a, b);
    if c == x {
      SubstituteSelf(t, x, r);
      assert NodeOk(t, x);
      assert Bit(t.size[r], t.level[x]) == Bit(t.size[x], t.level[x]);
    } else if c != NULL {
      assert ChildOk(t, a, b);
      SubstituteFields(t, x, r, c, b);
    }
  }
}
