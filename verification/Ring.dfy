/**
 * Circular doubly linked lists threaded through fd and bk words.  Small bins are rings
 * that contain their header; same-size chains of the tree bins are rings without one.
 */
module Ring {
  type Addr = int
  type Links = map<Addr, Addr>

  function Next(i: nat, n: nat): nat {
    if i + 1 == n then 0 else i + 1
  }

  function Prev(i: nat, n: nat): int {
    if i == 0 then n - 1 else i - 1
  }

  predicate Linked(fd: Links, bk: Links, s: seq<Addr>, i: nat)
    requires i < |s|
  {
    && s[i] in fd && fd[s[i]] == s[Next(i, |s|)]
    && s[i] in bk && bk[s[i]] == s[Prev(i, |s|)]
  }

  ghost predicate Distinct(s: seq<Addr>) {
    forall i, j :: 0 <= i < j < |s| ==> s[i] != s[j]
  }

  /** The links run around exactly the elements of `s`, in order. */
  ghost predicate IsRing(fd: Links, bk: Links, s: seq<Addr>) {
    && s != []
    && Distinct(s)
    && forall i {:trigger Linked(fd, bk, s, i)} :: 0 <= i < |s| ==> Linked(fd, bk, s, i)
  }

  /** Links of elements outside the ring do not matter. */
  lemma RingFrame(fd: Links, bk: Links, fd': Links, bk': Links, s: seq<Addr>)
    requires IsRing(fd, bk, s)
    requires forall x :: x in s && x in fd ==> x in fd' && fd'[x] == fd[x]
    requires forall x :: x in s && x in bk ==> x in bk' && bk'[x] == bk[x]
    ensures IsRing(fd', bk', s)
  {
    forall i | 0 <= i < |s| ensures Linked(fd', bk', s, i) {
      assert Linked(fd, bk, s, i);
      assert s[i] in s;
    }
  }

  /** Walk once around the ring from its first element. */
  method Search(fd: Links, ghost bk: Links, ghost s: seq<Addr>, start: Addr, x: Addr) returns (found: bool)
    requires IsRing(fd, bk, s) && start == s[0]
    ensures found <==> x in s
  {
    var p := start;
    ghost var i := 0;
    while true
      invariant i < |s| && p == s[i] && x !in s[..i]
      decreases |s| - i
    {
      if p == x {
        return true;
      }
      assert Linked(fd, bk, s, i);
      p := fd[p];
      if p == start {
        assert s[..|s|] == s;
        return false;
      }
      i := i + 1;
    }
  }

  /** A new ring of one. */
  lemma Singleton(fd: Links, bk: Links, x: Addr)
    ensures IsRing(fd[x := x], bk[x := x], [x])
  {
    assert Linked(fd[x := x], bk[x := x], [x], 0);
  }

  /** A new ring of two. */
  lemma Pair(fd: Links, bk: Links, h: Addr, x: Addr)
    requires h != x
    ensures IsRing(fd[h := x][x := h], bk[h := x][x := h], [h, x])
  {
    var s := [h, x];
    assert Linked(fd[h := x][x := h], bk[h := x][x := h], s, 0);
    assert Linked(fd[h := x][x := h], bk[h := x][x := h], s, 1);
  }

  /** Linking `x` right after the first element. */
  lemma InsertSecond(fd: Links, bk: Links, s: seq<Addr>, x: Addr)
    requires IsRing(fd, bk, s) && x !in s
    ensures s[0] in fd
    ensures var f := fd[s[0]];
      IsRing(fd[s[0] := x][x := f], bk[f := x][x := s[0]], [s[0], x] + s[1..])
  {
    assert Linked(fd, bk, s, 0);
    var f, s' := fd[s[0]], [s[0], x] + s[1..];
    var fd', bk' := fd[s[0] := x][x := f], bk[f := x][x := s[0]];
    assert s'[0] == s[0] && s'[1] == x;
    assert forall i :: 2 <= i < |s'| ==> s'[i] == s[i - 1];
    forall i | 0 <= i < |s'| ensures Linked(fd', bk', s', i) {
      if i == 0 {
        assert Linked(fd, bk, s, 0);
      } else if i >= 2 {
        assert Linked(fd, bk, s, i - 1);
      }
    }
  }

  function Without(s: seq<Addr>, k: nat): seq<Addr>
    requires k < |s|
  {
    s[..k] + s[k + 1..]
  }

  /** Unlinking element `k` of a ring of at least two. */
  lemma Unlink(fd: Links, bk: Links, s: seq<Addr>, k: nat)
    requires IsRing(fd, bk, s) && k < |s| && |s| >= 2
    ensures s[k] in fd && s[k] in bk
    ensures var f, b := fd[s[k]], bk[s[k]];
      && f == s[Next(k, |s|)] && b == s[Prev(k, |s|)]
      && IsRing(fd[b := f], bk[f := b], Without(s, k))
  {
    assert Linked(fd, bk, s, k);
    var f, b, s', n := fd[s[k]], bk[s[k]], Without(s, k), |s|;
    assert forall i :: 0 <= i < k ==> s'[i] == s[i];
    assert forall i :: k <= i < |s'| ==> s'[i] == s[i + 1];
    var fd', bk' := fd[b := f], bk[f := b];
    forall i | 0 <= i < |s'| ensures Linked(fd', bk', s', i) {
      UnlinkAt(fd, bk, s, k, i);
    }
  }

  lemma UnlinkAt(fd: Links, bk: Links, s: seq<Addr>, k: nat, i: nat)
    requires IsRing(fd, bk, s) && k < |s| && |s| >= 2 && i < |s| - 1 && s[k] in fd && s[k] in bk
    ensures Linked(fd[bk[s[k]] := fd[s[k]]], bk[fd[s[k]] := bk[s[k]]], Without(s, k), i)
  {
    assert Linked(fd, bk, s, k);
    var s', n := Without(s, k), |s|;
    assert forall j :: 0 <= j < k ==> s'[j] == s[j];
    assert forall j :: k <= j < |s'| ==> s'[j] == s[j + 1];
    var i' := if i < k then i else i + 1;
    assert s'[i] == s[i'];
    assert Linked(fd, bk, s, i');
    assert i' == Prev(k, n) <==> s[i'] == s[Prev(k, n)];
    assert i' == Next(k, n) <==> s[i'] == s[Next(k, n)];
  }

  /** A ring may be read starting from its last element. */
  lemma FromLast(fd: Links, bk: Links, s: seq<Addr>)
    requires IsRing(fd, bk, s)
    ensures IsRing(fd, bk, [s[|s| - 1]] + s[..|s| - 1])
  {
    var n := |s|;
    var s' := [s[n - 1]] + s[..n - 1];
    assert s'[0] == s[n - 1];
    assert forall i :: 1 <= i < n ==> s'[i] == s[i - 1];
    forall i | 0 <= i < n ensures Linked(fd, bk, s', i) {
      assert Linked(fd, bk, s, if i == 0 then n - 1 else i - 1);
    }
  }

  lemma WithoutElements(s: seq<Addr>, k: nat)
    requires k < |s| && Distinct(s)
    ensures forall y :: y in Without(s, k) <==> y in s && y != s[k]
  {
    var s' := Without(s, k);
    forall y | y in s && y != s[k] ensures y in s' {
      var i :| 0 <= i < |s| && s[i] == y;
      assert s'[if i < k then i else i - 1] == y;
    }
  }
}
