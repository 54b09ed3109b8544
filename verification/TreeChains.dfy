/**
 * Same-size chains of the tree bins.  Of all chunks of one size exactly one, the
 * representative, is a tree node; the others hang on its fd/bk ring with a null parent.
 */
module TreeChains {
  import opened SizeBits
  import opened Trie
  import R = Ring

  datatype Chains = Chains(
    fd: map<Addr, Addr>,
    bk: map<Addr, Addr>,
    ring: map<Addr, seq<Addr>>,
    rep: map<Addr, Addr>)

  /** The ring of tree node `a` starts at `a` and holds exactly the chunks it represents. */
  ghost predicate RingOk(t: Trie, c: Chains, a: Addr) {
    && a in c.ring && R.IsRing(c.fd, c.bk, c.ring[a])
    && c.ring[a][0] == a
    && forall x :: x in c.ring[a] ==> x in c.rep && c.rep[x] == a
  }

  ghost predicate MemberOk(t: Trie, c: Chains, x: Addr) {
    && x > 0 && t.HasFields(x) && x in c.rep
    && c.rep[x] in t.level && c.rep[x] in t.size && c.rep[x] in c.ring
    && x in c.ring[c.rep[x]]
    && t.size[x] == t.size[c.rep[x]]
    && t.index[x] == TreeIndex(t.size[x])
    && (x != c.rep[x] ==> x !in t.level && t.parent[x] == NULL && t.child0[x] == NULL && t.child1[x] == NULL)
  }

  ghost predicate ChainInv(t: Trie, c: Chains) {
    && c.ring.Keys == t.level.Keys
    && c.rep.Keys == t.size.Keys
    && (forall a {:trigger RingOk(t, c, a)} :: a in t.level ==> RingOk(t, c, a))
    && (forall x {:trigger MemberOk(t, c, x)} :: x in t.size ==> MemberOk(t, c, x))
  }

  lemma NodeIsOwnRep(t: Trie, c: Chains, a: Addr)
    requires ChainInv(t, c) && a in t.level
    ensures a in t.size && a in c.rep && c.rep[a] == a
  {
    assert RingOk(t, c, a);
    assert c.ring[a][0] in c.ring[a];
  }

  /** The tree fields that chain members rely on are unchanged outside `changed`. */
  ghost predicate SameMembers(t: Trie, t': Trie, changed: set<Addr>) {
    forall x {:trigger t'.HasFields(x)} :: x in t.size && x !in changed && t.HasFields(x) ==>
      && t'.HasFields(x) && t'.size[x] == t.size[x] && t'.index[x] == t.index[x]
      && (x in t.level <==> x in t'.level)
      && (x !in t.level ==> t'.parent[x] == t.parent[x] && t'.child0[x] == t.child0[x] && t'.child1[x] == t.child1[x])
  }

  function Start(c: Chains, x: Addr): Chains {
    Chains(c.fd[x := x], c.bk[x := x], c.ring[x := [x]], c.rep[x := x])
  }

  /** A new tree node starts a chain of its own. */
  lemma StartKeeps(t: Trie, t': Trie, c: Chains, x: Addr)
    requires ChainInv(t, c) && x !in t.size && x > 0
    requires t'.HasFields(x) && t'.size == t.size[x := t'.size[x]] && t'.index[x] == TreeIndex(t'.size[x])
    requires t'.level.Keys == t.level.Keys + {x}
    requires SameMembers(t, t', {})
    ensures ChainInv(t', Start(c, x))
  {
    var c' := Start(c, x);
    R.Singleton(c.fd, c.bk, x);
    forall a | a in t'.level ensures RingOk(t', c', a) {
      if a == x {
        assert forall y :: y in [x] ==> y == x;
      } else {
        assert RingOk(t, c, a);
        assert x !in c.ring[a];
        R.RingFrame(c.fd, c.bk, c'.fd, c'.bk, c.ring[a]);
      }
    }
    forall y | y in t'.size ensures MemberOk(t', c', y) {
      if y != x {
        assert MemberOk(t, c, y);
        assert t'.HasFields(y);
        assert c.rep[y] != x;
        if c.rep[y] in t.level { NodeIsOwnRep(t, c, c.rep[y]); }
      }
    }
  }

  /** `x` joins the chain of node `a`, right after `a`. */
  function Join(c: Chains, a: Addr, x: Addr): Chains
    requires a in c.fd && a in c.ring && c.ring[a] != []
  {
    var f := c.fd[a];
    Chains(c.fd[a := x][x := f], c.bk[f := x][x := a], c.ring[a := [a, x] + c.ring[a][1..]], c.rep[x := a])
  }

  lemma JoinKeeps(t: Trie, t': Trie, c: Chains, a: Addr, x: Addr)
    requires ChainInv(t, c) && x !in t.size && x > 0 && a in t.level && a in t.size
    requires t'.HasFields(x) && t'.size == t.size[x := t.size[a]] && t'.index[x] == TreeIndex(t.size[a])
    requires t'.parent[x] == NULL && t'.child0[x] == NULL && t'.child1[x] == NULL
    requires t'.level == t.level
    requires SameMembers(t, t', {})
    ensures a in c.fd && a in c.ring && c.ring[a] != []
    ensures ChainInv(t', Join(c, a, x))
  {
    assert RingOk(t, c, a);
    NodeIsOwnRep(t, c, a);
    assert R.Linked(c.fd, c.bk, c.ring[a], 0);
    var c', s, f := Join(c, a, x), c.ring[a], c.fd[a];
    assert x !in s;
    R.InsertSecond(c.fd, c.bk, s, x);
    assert f in s;
    forall b | b in t'.level ensures RingOk(t', c', b) {
      assert RingOk(t, c, b);
      if b == a {
        var s' := [a, x] + s[1..];
        forall y | y in s' ensures y in c'.rep && c'.rep[y] == a {
          if y != x { assert y in s; }
        }
      } else {
        assert x !in c.ring[b] && a !in c.ring[b] && f !in c.ring[b];
        R.RingFrame(c.fd, c.bk, c'.fd, c'.bk, c.ring[b]);
      }
    }
    forall y | y in t'.size ensures MemberOk(t', c', y) {
      if y == x {
        assert c'.ring[a][1] == x;
      } else {
        assert MemberOk(t, c, y);
        assert t'.HasFields(y);
        if c.rep[y] == a {
          var k :| 0 <= k < |s| && s[k] == y;
          assert c'.ring[a][if k == 0 then 0 else k + 1] == y;
        }
        NodeIsOwnRep(t, c, c.rep[y]);
      }
    }
  }

  /** `x`, the last of its size, goes away with its chain. */
  function Drop(c: Chains, x: Addr): Chains {
    Chains(c.fd, c.bk, c.ring - {x}, c.rep - {x})
  }

  lemma DropKeeps(t: Trie, t': Trie, c: Chains, x: Addr)
    requires ChainInv(t, c) && x in t.level && x in c.ring && |c.ring[x]| == 1
    requires t'.size == t.size - {x} && t'.level.Keys == t.level.Keys - {x}
    requires SameMembers(t, t', {x})
    ensures ChainInv(t', Drop(c, x))
  {
    var c' := Drop(c, x);
    assert RingOk(t, c, x);
    assert c.ring[x] == [x];
    forall a | a in t'.level ensures RingOk(t', c', a) {
      assert RingOk(t, c, a);
      NodeIsOwnRep(t, c, x);
      assert x !in c.ring[a];
    }
    forall y | y in t'.size ensures MemberOk(t', c', y) {
      assert MemberOk(t, c, y);
      assert t'.HasFields(y);
      assert c.rep[y] != x;
      NodeIsOwnRep(t, c, c.rep[y]);
    }
  }

  /** `x` leaves a chain of several; `r`, the chunk before it, represents the rest if `x` did. */
  function Leave(c: Chains, x: Addr, k: nat): Chains
    requires x in c.rep && c.rep[x] in c.ring && x in c.fd && x in c.bk
    requires var s := c.ring[c.rep[x]]; k < |s| && |s| >= 2
  {
    var a, f, r := c.rep[x], c.fd[x], c.bk[x];
    var rest := R.Without(c.ring[a], k);
    if a != x then
      Chains(c.fd[r := f], c.bk[f := r], c.ring[a := rest], c.rep - {x})
    else
      var n := |rest|;
      Chains(c.fd[r := f], c.bk[f := r],
        (c.ring - {x})[r := [rest[n - 1]] + rest[..n - 1]],
        map y | y in c.rep && y != x :: if c.rep[y] == x then r else c.rep[y])
  }

  /** Where `x` stands in its ring, and its neighbours there. */
  lemma PlaceInRing(t: Trie, c: Chains, x: Addr) returns (k: nat)
    requires ChainInv(t, c) && x in t.size
    ensures x in c.rep && c.rep[x] in c.ring && c.rep[x] in t.level && x in c.fd && x in c.bk
    ensures var s := c.ring[c.rep[x]];
      && k < |s| && s[k] == x
      && R.IsRing(c.fd, c.bk, s)
      && c.bk[x] == s[R.Prev(k, |s|)] && c.fd[x] == s[R.Next(k, |s|)]
      && (c.bk[x] == x <==> |s| == 1)
      && (x == c.rep[x] <==> k == 0)
  {
    assert MemberOk(t, c, x);
    var a := c.rep[x];
    assert RingOk(t, c, a);
    var s := c.ring[a];
    k :| 0 <= k < |s| && s[k] == x;
    assert R.Linked(c.fd, c.bk, s, k);
  }

  lemma LeaveMember(t: Trie, t': Trie, c: Chains, x: Addr, k: nat)
    requires ChainInv(t, c) && x in t.size && x in c.rep && c.rep[x] in c.ring && x in c.fd && x in c.bk
    requires var s := c.ring[c.rep[x]]; |s| >= 2 && k < |s| && s[k] == x
    requires c.rep[x] != x
    requires t'.size == t.size - {x} && t'.level == t.level
    requires SameMembers(t, t', {x})
    ensures ChainInv(t', Leave(c, x, k))
  {
    var a, c' := c.rep[x], Leave(c, x, k);
    var s := c.ring[a];
    assert MemberOk(t, c, x);
    assert RingOk(t, c, a);
    assert R.Linked(c.fd, c.bk, s, k);
    R.Unlink(c.fd, c.bk, s, k);
    var f, r, rest := c.fd[x], c.bk[x], R.Without(s, k);
    assert f in s && r in s;
    forall b | b in t'.level ensures RingOk(t', c', b) {
      assert RingOk(t, c, b);
      if b == a {
        R.WithoutElements(s, k);
        assert rest[0] == a;
      } else {
        assert x !in c.ring[b] && r !in c.ring[b] && f !in c.ring[b];
        R.RingFrame(c.fd, c.bk, c'.fd, c'.bk, c.ring[b]);
      }
    }
    forall y | y in t'.size ensures MemberOk(t', c', y) {
      assert MemberOk(t, c, y);
      assert t'.HasFields(y);
      R.WithoutElements(s, k);
      NodeIsOwnRep(t, c, c.rep[y]);
    }
  }

  lemma LeaveNode(t: Trie, t': Trie, c: Chains, x: Addr)
    requires ChainInv(t, c) && x in t.size && x in c.rep && c.rep[x] == x && x in c.ring && x in c.fd && x in c.bk
    requires |c.ring[x]| >= 2
    requires t'.size == t.size - {x} && t'.level.Keys == t.level.Keys - {x} + {c.bk[x]}
    requires c.bk[x] in t.size ==> t'.HasFields(c.bk[x]) && t'.index[c.bk[x]] == TreeIndex(t.size[c.bk[x]])
    requires SameMembers(t, t', {x, c.bk[x]})
    ensures ChainInv(t', Leave(c, x, 0))
  {
    var c', s := Leave(c, x, 0), c.ring[x];
    assert MemberOk(t, c, x);
    assert RingOk(t, c, x);
    assert R.Linked(c.fd, c.bk, s, 0);
    R.Unlink(c.fd, c.bk, s, 0);
    var f, r, rest := c.fd[x], c.bk[x], R.Without(s, 0);
    assert f in s && r in s && r == s[|s| - 1];
    assert MemberOk(t, c, r);
    R.WithoutElements(s, 0);
    R.FromLast(c'.fd, c'.bk, rest);
    var s' := [rest[|rest| - 1]] + rest[..|rest| - 1];
    assert forall y :: y in s' <==> y in rest;
    forall b | b in t'.level ensures RingOk(t', c', b) {
      if b != r {
        assert RingOk(t, c, b);
        assert x !in c.ring[b] && r !in c.ring[b] && f !in c.ring[b];
        R.RingFrame(c.fd, c.bk, c'.fd, c'.bk, c.ring[b]);
      }
    }
    forall y | y in t'.size ensures MemberOk(t', c', y) {
      assert MemberOk(t, c, y);
      if y != r {
        assert t'.HasFields(y);
      }
      if c.rep[y] != x {
        NodeIsOwnRep(t, c, c.rep[y]);
      }
    }
  }
}
