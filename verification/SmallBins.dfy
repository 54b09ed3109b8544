/**
 * The small bins: for each size below 256 bytes a ring of free chunks that passes through
 * a bin header.  An emptied bin only loses its map bit; the links of its header go stale.
 */
module SmallBins {
  import opened SizeBits
  import opened BinMap
  import R = Ring
  import Layout

  type Addr = int

  const NSMALLBINS: nat := 32

  /** smallbin_at: headers are addresses no chunk can have. */
  function Header(i: nat): Addr {
    -1 - i
  }

  datatype Links = Links(fd: map<Addr, Addr>, bk: map<Addr, Addr>)

  /** The lists in order, and the chunks held with their sizes. */
  datatype Lists = Lists(lists: seq<seq<Addr>>, size: map<Addr, nat>)

  predicate SmallSize(s: nat) {
    Layout.MIN_CHUNK_SIZE <= s < 0x100 && s % 8 == 0
  }

  ghost predicate BinOk(smallmap: binmap, w: Links, g: Lists, i: nat) {
    && i < |g.lists|
    && (Marked(smallmap, i) <==> g.lists[i] != [])
    && (g.lists[i] != [] ==> R.IsRing(w.fd, w.bk, [Header(i)] + g.lists[i]))
    && forall x :: x in g.lists[i] <==> x in g.size && g.size[x] == 8 * i
  }

  ghost predicate State(smallmap: binmap, w: Links, g: Lists) {
    && |g.lists| == NSMALLBINS
    && (forall i {:trigger BinOk(smallmap, w, g, i)} :: 0 <= i < NSMALLBINS ==> BinOk(smallmap, w, g, i))
    && (forall x :: x in g.size ==> x > 0 && SmallSize(g.size[x]))
  }

  /** Bin `j` does not see changes to the links of others. */
  lemma OtherBin(smallmap: binmap, w: Links, g: Lists, smallmap': binmap, w': Links, g': Lists, i: nat, j: nat)
    requires BinOk(smallmap, w, g, j) && i != j && |g'.lists| == |g.lists| && g'.lists[j] == g.lists[j]
    requires Marked(smallmap', j) <==> Marked(smallmap, j)
    requires forall x :: x in g.size || x in g'.size ==> x > 0
    requires forall x :: (x in g.size && g.size[x] == 8 * j) <==> (x in g'.size && g'.size[x] == 8 * j)
    requires forall a :: a == Header(j) || (a in g.size && g.size[a] == 8 * j) ==>
               && (a in w.fd ==> a in w'.fd && w'.fd[a] == w.fd[a])
               && (a in w.bk ==> a in w'.bk && w'.bk[a] == w.bk[a])
    ensures BinOk(smallmap', w', g', j)
  {
    if g.lists[j] != [] {
      R.RingFrame(w.fd, w.bk, w'.fd, w'.bk, [Header(j)] + g.lists[j]);
    }
  }

  /** Link `p` between header `b` and the first chunk `f`. */
  function Pushed(w: Links, b: Addr, f: Addr, p: Addr): Links {
    Links(w.fd[b := p][p := f], w.bk[f := p][p := b])
  }

  function Push(g: Lists, p: Addr, s: nat): Lists
    requires s / 8 < |g.lists|
  {
    Lists(g.lists[s / 8 := [p] + g.lists[s / 8]], g.size[p := s])
  }

  /** The chunk after the header, if the bin's links are live. */
  function First(smallmap: binmap, w: Links, i: nat): Addr
    requires Marked(smallmap, i) ==> Header(i) in w.fd
  {
    if Marked(smallmap, i) then w.fd[Header(i)] else Header(i)
  }

  lemma FirstIsHead(smallmap: binmap, w: Links, g: Lists, i: nat)
    requires BinOk(smallmap, w, g, i)
    ensures Marked(smallmap, i) ==> Header(i) in w.fd && g.lists[i] != [] && w.fd[Header(i)] == g.lists[i][0]
  {
    if Marked(smallmap, i) {
      assert R.Linked(w.fd, w.bk, [Header(i)] + g.lists[i], 0);
    }
  }

  lemma PushKeeps(smallmap: binmap, w: Links, g: Lists, p: Addr, s: nat)
    requires State(smallmap, w, g) && p > 0 && p !in g.size && SmallSize(s)
    requires Marked(smallmap, s / 8) ==> Header(s / 8) in w.fd
    ensures State(Mark(smallmap, s / 8), Pushed(w, Header(s / 8), First(smallmap, w, s / 8), p), Push(g, p, s))
  {
    var i := s / 8;
    var b, f := Header(i), First(smallmap, w, i);
    var map', w', g' := Mark(smallmap, i), Pushed(w, b, f, p), Push(g, p, s);
    PushRing(smallmap, w, g, p, i);
    assert f == b || (f in g.size && g.size[f] == s);
    forall j | 0 <= j < NSMALLBINS ensures BinOk(map', w', g', j) {
      MarkOne(smallmap, i, j);
      assert BinOk(smallmap, w, g, j);
      if j != i {
        OtherBin(smallmap, w, g, map', w', g', i, j);
      }
    }
  }

  lemma PushRing(smallmap: binmap, w: Links, g: Lists, p: Addr, i: nat)
    requires BinOk(smallmap, w, g, i) && p > 0 && p !in g.size
    requires Marked(smallmap, i) ==> Header(i) in w.fd
    ensures var w' := Pushed(w, Header(i), First(smallmap, w, i), p);
      R.IsRing(w'.fd, w'.bk, [Header(i)] + ([p] + g.lists[i]))
    ensures Marked(smallmap, i) ==> First(smallmap, w, i) in g.lists[i]
  {
    var b, l := Header(i), g.lists[i];
    FirstIsHead(smallmap, w, g, i);
    assert [b] + ([p] + l) == [b, p] + ([b] + l)[1..];
    if Marked(smallmap, i) {
      R.InsertSecond(w.fd, w.bk, [b] + l, p);
    } else {
      R.Pair(w.fd, w.bk, b, p);
      assert [b, p] + ([b] + l)[1..] == [b, p];
    }
  }

  /** Where a chunk stands in its bin. */
  lemma Place(smallmap: binmap, w: Links, g: Lists, p: Addr) returns (k: nat)
    requires State(smallmap, w, g) && p in g.size
    ensures var i := g.size[p] / 8;
      && i < NSMALLBINS && g.size[p] == 8 * i
      && k < |g.lists[i]| && g.lists[i][k] == p
      && p in w.fd && p in w.bk
      && w.fd[p] == (if k + 1 < |g.lists[i]| then g.lists[i][k + 1] else Header(i))
      && w.bk[p] == (if k > 0 then g.lists[i][k - 1] else Header(i))
      && (w.bk[p] == w.fd[p] <==> |g.lists[i]| == 1)
      && Marked(smallmap, i)
  {
    var i := g.size[p] / 8;
    assert BinOk(smallmap, w, g, i);
    var l := g.lists[i];
    assert p in l;
    k :| 0 <= k < |l| && l[k] == p;
    var s := [Header(i)] + l;
    assert s[k + 1] == p;
    assert R.Linked(w.fd, w.bk, s, k + 1);
    if |l| > 1 {
      assert s[R.Next(k + 1, |s|)] != s[R.Prev(k + 1, |s|)];
    }
  }

  function Drop(g: Lists, p: Addr, k: nat): Lists
    requires p in g.size && g.size[p] / 8 < |g.lists| && k < |g.lists[g.size[p] / 8]|
  {
    var i := g.size[p] / 8;
    Lists(g.lists[i := R.Without(g.lists[i], k)], g.size - {p})
  }

  /** Taking the only chunk out of a bin: the links stay as they are. */
  lemma DropLastKeeps(smallmap: binmap, w: Links, g: Lists, p: Addr)
    requires State(smallmap, w, g) && p in g.size && g.size[p] / 8 < NSMALLBINS && g.lists[g.size[p] / 8] == [p]
    ensures State(Clear(smallmap, g.size[p] / 8), w, Drop(g, p, 0))
  {
    var i := g.size[p] / 8;
    var map', g' := Clear(smallmap, i), Drop(g, p, 0);
    forall j | 0 <= j < NSMALLBINS ensures BinOk(map', w, g', j) {
      ClearOne(smallmap, i, j);
      assert BinOk(smallmap, w, g, j);
      if j != i {
        OtherBin(smallmap, w, g, map', w, g', i, j);
      }
    }
  }

  /** Unlinking one chunk of several. */
  lemma DropKeeps(smallmap: binmap, w: Links, g: Lists, p: Addr, k: nat)
    requires State(smallmap, w, g) && p in g.size && g.size[p] / 8 < NSMALLBINS
    requires var l := g.lists[g.size[p] / 8]; |l| > 1 && k < |l| && l[k] == p
    ensures p in w.fd && p in w.bk
    ensures State(smallmap, Links(w.fd[w.bk[p] := w.fd[p]], w.bk[w.fd[p] := w.bk[p]]), Drop(g, p, k))
  {
    var i := g.size[p] / 8;
    assert BinOk(smallmap, w, g, i);
    var l := g.lists[i];
    var s := [Header(i)] + l;
    assert R.Linked(w.fd, w.bk, s, k + 1);
    R.Unlink(w.fd, w.bk, s, k + 1);
    assert R.Without(s, k + 1) == [Header(i)] + R.Without(l, k);
    var f, b := w.fd[p], w.bk[p];
    assert f in s && b in s;
    var w', g' := Links(w.fd[b := f], w.bk[f := b]), Drop(g, p, k);
    forall j | 0 <= j < NSMALLBINS ensures BinOk(smallmap, w', g', j) {
      assert BinOk(smallmap, w, g, j);
      if j != i {
        OtherBin(smallmap, w, g, smallmap, w', g', i, j);
      } else {
        DropElements(l, s, k);
      }
    }
  }

  lemma DropElements(l: seq<Addr>, s: seq<Addr>, k: nat)
    requires k < |l| && |s| == |l| + 1 && s[1..] == l && R.Distinct(s)
    ensures forall y :: y in R.Without(l, k) <==> y in l && y != l[k]
  {
    assert forall n :: 0 <= n < |l| ==> l[n] == s[n + 1];
    R.WithoutElements(l, k);
  }

  class SmallBins {
    var smallmap: binmap
    var w: Links
    ghost var g: Lists

    ghost predicate Valid()
      reads this
    {
      State(smallmap, w, g)
    }

    /** The chunks held, with their sizes. */
    ghost function Contents(): map<Addr, nat>
      reads this
    {
      g.size
    }

    /** Each chunk held marks its bin, and each marked bin holds a chunk. */
    lemma MarksTell(x: Addr, i: nat)
      requires Valid() && i < NSMALLBINS
      ensures x in Contents() ==> x > 0 && SmallSize(Contents()[x]) && Marked(smallmap, Contents()[x] / 8)
      ensures Marked(smallmap, i) ==> i >= 4
      ensures Marked(smallmap, i) <==> exists y :: y in Contents() && Contents()[y] == 8 * i
    {
      if x in Contents() {
        assert BinOk(smallmap, w, g, g.size[x] / 8);
      }
      assert BinOk(smallmap, w, g, i);
      if Marked(smallmap, i) {
        var y := g.lists[i][0];
        assert y in g.lists[i];
        assert y in g.size && SmallSize(8 * i);
      }
      forall y | y in Contents() && Contents()[y] == 8 * i ensures Marked(smallmap, i) {
        assert BinOk(smallmap, w, g, g.size[y] / 8);
      }
    }

    /** init_bins. */
    constructor ()
      ensures Valid() && Contents() == map[] && smallmap == 0
    {
      smallmap := 0;
      w := Links(map[], map[]);
      g := Lists(seq(NSMALLBINS, _ => []), map[]);
      new;
      for i := 0 to NSMALLBINS
        invariant smallmap == 0 && g == Lists(seq(NSMALLBINS, _ => []), map[])
      {
        w := Links(w.fd[Header(i) := Header(i)], w.bk[Header(i) := Header(i)]);
      }
      forall i | 0 <= i < NSMALLBINS ensures BinOk(smallmap, w, g, i) { PrefixOfZero(i); }
    }

    /** insert_small_chunk: the chunk goes to the front of its bin. */
    method InsertSmall(p: Addr, s: nat)
      requires Valid() && p > 0 && p !in Contents() && SmallSize(s)
      modifies this
      ensures Valid() && Contents() == old(Contents())[p := s]
      ensures g == Push(old(g), p, s)
    {
      var i := s / 8;
      var b := Header(i);
      var f := b;
      FirstIsHead(smallmap, w, g, i);
      PushKeeps(smallmap, w, g, p, s);
      g := Push(g, p, s);
      if Marked(smallmap, i) {
        f := w.fd[b];
        MarkedTwice(smallmap, i);
      } else {
        smallmap := Mark(smallmap, i);
      }
      w := w.(fd := w.fd[b := p]);
      w := w.(bk := w.bk[f := p]);
      w := w.(fd := w.fd[p := f], bk := w.bk[p := b]);
    }

    /** unlink_small_chunk. */
    method UnlinkSmall(p: Addr, s: nat)
      requires Valid() && p in Contents() && Contents()[p] == s
      modifies this
      ensures Valid() && Contents() == old(Contents()) - {p}
    {
      ghost var k := Place(smallmap, w, g, p);
      var f, b, i := w.fd[p], w.bk[p], s / 8;
      if b == f {
        assert g.lists[i] == [p];
        DropLastKeeps(smallmap, w, g, p);
        smallmap := Clear(smallmap, i);
      } else {
        DropKeeps(smallmap, w, g, p, k);
        w := w.(bk := w.bk[f := b]);
        w := w.(fd := w.fd[b := f]);
      }
      g := Drop(g, p, k);
    }

    /** The first chunk of a non-empty bin, read through the header. */
    method FirstOf(i: nat) returns (p: Addr)
      requires Valid() && i < NSMALLBINS && Marked(smallmap, i)
      ensures g.lists[i] != [] && p == g.lists[i][0]
      ensures p in Contents() && Contents()[p] == 8 * i
    {
      FirstIsHead(smallmap, w, g, i);
      assert BinOk(smallmap, w, g, i);
      p := w.fd[Header(i)];
      assert p in g.lists[i];
    }

    /** The part of bin_find for small sizes. */
    method Find(x: Addr, s: nat) returns (found: bool)
      requires Valid() && x > 0 && s < 0x100 && s % 8 == 0
      ensures found <==> x in Contents() && Contents()[x] == s
    {
      var i := s / 8;
      assert BinOk(smallmap, w, g, i);
      found := false;
      if Marked(smallmap, i) {
        found := R.Search(w.fd, w.bk, [Header(i)] + g.lists[i], Header(i), x);
      }
    }

    /** unlink_first_small_chunk. */
    method UnlinkFirst(i: nat, p: Addr)
      requires Valid() && i < NSMALLBINS && g.lists[i] != [] && p == g.lists[i][0]
      modifies this
      ensures Valid() && p in old(Contents())
      ensures Contents() == old(Contents()) - {p}
    {
      var b := Header(i);
      assert BinOk(smallmap, w, g, i);
      assert p in g.lists[i];
      ghost var k := Place(smallmap, w, g, p);
      FirstPlace(smallmap, w, g, p, i, k);
      var f := w.fd[p];
      if b == f {
        assert g.lists[i] == [p];
        DropLastKeeps(smallmap, w, g, p);
        smallmap := Clear(smallmap, i);
      } else {
        DropKeeps(smallmap, w, g, p, k);
        w := w.(bk := w.bk[f := b]);
        w := w.(fd := w.fd[b := f]);
      }
      g := Drop(g, p, k);
    }
  }

  lemma FirstPlace(smallmap: binmap, w: Links, g: Lists, p: Addr, i: nat, k: nat)
    requires State(smallmap, w, g) && i < NSMALLBINS && g.lists[i] != [] && p == g.lists[i][0] && k < |g.lists[i]| && g.lists[i][k] == p
    ensures k == 0
  {
    assert BinOk(smallmap, w, g, i);
    var s := [Header(i)] + g.lists[i];
    assert s[1] == p && s[k + 1] == p;
  }

  /** Setting a bit that is set changes nothing. */
  lemma MarkedTwice(m: binmap, i: nat)
    requires i < 32 && Marked(m, i)
    ensures Mark(m, i) == m
  {
    OrSame(m, i);
  }

  lemma {:induction false} OrSame(m: nat, i: nat)
    requires Bit(m, i) == 1
    ensures Or(m, Pow2(i)) == m
    decreases i
  {
    if i == 0 {
      OrZero(m / 2);
    } else {
      BitOfHalf(m, i - 1);
      OrSame(m / 2, i - 1);
    }
  }

  lemma {:induction false} OrZero(m: nat)
    ensures Or(m, 0) == m
  {
    if m > 0 {
      OrZero(m / 2);
    }
  }
}
