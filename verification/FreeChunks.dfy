/**
 * Where free chunks are kept: each free chunk other than top is the designated victim, or
 * in the small bins, or in the tree bins, and in exactly one of them.
 */
module FreeChunks {
  import opened Layout

  /** The designated victim and the contents of the two kinds of bins. */
  datatype Binned = Binned(dv: Addr, dvsize: nat, small: map<Addr, nat>, large: map<Addr, nat>)

  predicate IsSmall(s: nat) {
    s < 0x100
  }

  predicate Kept(b: Binned, a: Addr) {
    a in b.small || a in b.large || (a == b.dv && b.dvsize > 0)
  }

  /** A binned chunk is free, of the recorded size and in the right kind of bin. */
  predicate KeptOk(l: Layout, b: Binned, a: Addr) {
    && (a in b.small ==> Free(l, a) && a in l.size && l.size[a] == b.small[a] && IsSmall(b.small[a]))
    && (a in b.large ==> Free(l, a) && a in l.size && l.size[a] == b.large[a] && !IsSmall(b.large[a]))
  }

  predicate VictimOk(l: Layout, b: Binned) {
    && (b.dvsize == 0 ==> b.dv == 0)
    && (b.dvsize > 0 ==> Free(l, b.dv) && b.dv in l.size && l.size[b.dv] == b.dvsize && b.dv !in b.small && b.dv !in b.large)
  }

  /** Every free chunk outside `x` is kept somewhere; those in `x` are nowhere. */
  ghost predicate Match(l: Layout, b: Binned, x: set<Addr>) {
    && VictimOk(l, b)
    && (forall a {:trigger KeptOk(l, b, a)} :: KeptOk(l, b, a))
    && (forall a {:trigger Free(l, a)} :: Free(l, a) && a !in x ==> Kept(b, a))
    && (forall a :: a in x ==> !Kept(b, a))
  }

  lemma TakeSmall(l: Layout, b: Binned, x: set<Addr>, p: Addr)
    requires Match(l, b, x) && p in b.small
    ensures Match(l, b.(small := b.small - {p}), x + {p})
    ensures Free(l, p) && p in l.size && l.size[p] == b.small[p]
  {
    var b' := b.(small := b.small - {p});
    assert KeptOk(l, b, p);
    forall a ensures KeptOk(l, b', a) { assert KeptOk(l, b, a); }
  }

  lemma TakeLarge(l: Layout, b: Binned, x: set<Addr>, p: Addr)
    requires Match(l, b, x) && p in b.large
    ensures Match(l, b.(large := b.large - {p}), x + {p})
    ensures Free(l, p) && p in l.size && l.size[p] == b.large[p]
  {
    var b' := b.(large := b.large - {p});
    assert KeptOk(l, b, p);
    forall a ensures KeptOk(l, b', a) { assert KeptOk(l, b, a); }
  }

  lemma TakeVictim(l: Layout, b: Binned, x: set<Addr>)
    requires Match(l, b, x) && b.dvsize > 0
    ensures Match(l, b.(dv := 0, dvsize := 0), x + {b.dv})
  {
    var b' := b.(dv := 0, dvsize := 0);
    forall a ensures KeptOk(l, b', a) { assert KeptOk(l, b, a); }
  }

  lemma PutSmall(l: Layout, b: Binned, x: set<Addr>, p: Addr)
    requires Match(l, b, x) && p in x && Free(l, p) && p in l.size && IsSmall(l.size[p])
    ensures p !in b.small && Match(l, b.(small := b.small[p := l.size[p]]), x - {p})
  {
    var b' := b.(small := b.small[p := l.size[p]]);
    forall a ensures KeptOk(l, b', a) { assert KeptOk(l, b, a); }
  }

  lemma PutLarge(l: Layout, b: Binned, x: set<Addr>, p: Addr)
    requires Match(l, b, x) && p in x && Free(l, p) && p in l.size && !IsSmall(l.size[p])
    ensures p !in b.large && Match(l, b.(large := b.large[p := l.size[p]]), x - {p})
  {
    var b' := b.(large := b.large[p := l.size[p]]);
    forall a ensures KeptOk(l, b', a) { assert KeptOk(l, b, a); }
  }

  lemma PutVictim(l: Layout, b: Binned, x: set<Addr>, p: Addr)
    requires Match(l, b, x) && b.dvsize == 0 && p in x && Free(l, p) && p in l.size && l.size[p] > 0
    ensures Match(l, b.(dv := p, dvsize := l.size[p]), x - {p})
  {
    var b' := b.(dv := p, dvsize := l.size[p]);
    forall a ensures KeptOk(l, b', a) { assert KeptOk(l, b, a); }
  }

  /** The layout changes only outside what is kept. */
  lemma Relayout(l: Layout, l': Layout, b: Binned, x: set<Addr>, x': set<Addr>)
    requires Match(l, b, x)
    requires forall a :: a in x' ==> !Kept(b, a)
    requires forall a :: Free(l', a) && a !in x' ==> Free(l, a) && a !in x
    requires forall a :: Kept(b, a) ==> Free(l', a) && a in l'.size && (a in l.size ==> l'.size[a] == l.size[a])
    ensures Match(l', b, x')
  {
    forall a ensures KeptOk(l', b, a) { assert KeptOk(l, b, a); }
  }

  lemma KeptFree(l: Layout, b: Binned, x: set<Addr>, a: Addr)
    requires Match(l, b, x) && Kept(b, a)
    ensures Free(l, a) && a !in x && a in l.size
  {
    assert KeptOk(l, b, a);
  }

  lemma UseWholeMatch(l: Layout, b: Binned, p: Addr)
    requires Inv(l) && Match(l, b, {p}) && Free(l, p) && p in l.size
    ensures Match(UseWhole(l, p), b, {})
  {
    var l' := UseWhole(l, p);
    forall a | Kept(b, a) ensures Free(l', a) && a in l'.size && l'.size[a] == l.size[a] {
      KeptFree(l, b, {p}, a);
    }
    Relayout(l, l', b, {p}, {});
  }

  lemma SplitMatch(l: Layout, b: Binned, p: Addr, nb: nat)
    requires Inv(l) && Match(l, b, {p}) && CanSplit(l, p, nb)
    ensures Match(Split(l, p, nb), b, {p + nb}) && Free(Split(l, p, nb), p + nb)
  {
    var l', r := Split(l, p, nb), p + nb;
    NothingInside(l, p, r);
    BeforeEnd(l, p);
    BeforeEnd(l, Next(l, p));
    forall a | Kept(b, a) ensures a != r && Free(l', a) && a in l'.size && l'.size[a] == l.size[a] {
      KeptFree(l, b, {p}, a);
    }
    Relayout(l, l', b, {p}, {r});
  }

  lemma CarveTopMatch(l: Layout, b: Binned, nb: nat)
    requires Inv(l) && Match(l, b, {}) && MIN_CHUNK_SIZE <= nb < l.topsize
    ensures Match(CarveTop(l, nb), b, {})
  {
    var l' := CarveTop(l, nb);
    forall a | Kept(b, a) ensures Free(l', a) && a in l'.size && l'.size[a] == l.size[a] {
      KeptFree(l, b, {}, a);
      BeforeEnd(l, a);
    }
    Relayout(l, l', b, {}, {});
  }

  lemma GrowTopMatch(l: Layout, b: Binned, n: nat)
    requires Inv(l) && Match(l, b, {})
    ensures Match(GrowTop(l, n), b, {})
  {
    var l' := GrowTop(l, n);
    forall a | Kept(b, a) ensures Free(l', a) && a in l'.size && l'.size[a] == l.size[a] {
      KeptFree(l, b, {}, a);
    }
    Relayout(l, l', b, {}, {});
  }

  lemma FreeRangeMatch(l: Layout, b: Binned, x: set<Addr>, p: Addr, e: Addr)
    requires Inv(l) && Match(l, b, x) && CanFree(l, p, e)
    requires forall a :: a in x ==> p <= a < e
    requires forall a :: Free(l, a) && p <= a < e ==> a in x
    ensures Match(FreeRange(l, p, e), b, {p})
  {
    var l' := FreeRange(l, p, e);
    forall a | Kept(b, a) ensures a != p && Free(l', a) && a in l'.size && l'.size[a] == l.size[a] {
      KeptFree(l, b, x, a);
    }
    Relayout(l, l', b, x, {p});
  }

  lemma FreeIntoTopMatch(l: Layout, b: Binned, x: set<Addr>, p: Addr)
    requires Inv(l) && Match(l, b, x) && p in l.chunks && p < l.End()
    requires forall a :: a in x ==> p <= a
    requires forall a :: Free(l, a) && p <= a ==> a in x
    ensures Match(FreeIntoTop(l, p), b, {})
  {
    var l' := FreeIntoTop(l, p);
    BeforeEnd(l, p);
    forall a | Kept(b, a) ensures Free(l', a) && a in l'.size && l'.size[a] == l.size[a] {
      KeptFree(l, b, x, a);
    }
    Relayout(l, l', b, x, {});
  }

  /** A freed range that contains the victim becomes the victim. */
  lemma VictimRange(l: Layout, b: Binned, x: set<Addr>, p: Addr, e: Addr)
    requires Inv(l) && Match(l, b, x) && CanFree(l, p, e) && b.dvsize > 0 && p <= b.dv < e
    requires forall a :: a in x ==> p <= a < e
    requires forall a :: Free(l, a) && p <= a < e ==> a in x || a == b.dv
    ensures Match(FreeRange(l, p, e), b.(dv := p, dvsize := e - p), {})
  {
    var b1 := b.(dv := 0, dvsize := 0);
    TakeVictim(l, b, x);
    FreeRangeMatch(l, b1, x + {b.dv}, p, e);
    var l' := FreeRange(l, p, e);
    BeforeEnd(l, e);
    PutVictim(l', b1, {p}, p);
    assert {p} - {p} == {};
  }

  /** A victim that merges with top is gone. */
  lemma VictimIntoTop(l: Layout, b: Binned, p: Addr)
    requires Inv(l) && Match(l, b, {}) && p in l.chunks && p < l.End() && b.dvsize > 0 && p == b.dv
    requires forall a :: Free(l, a) && p <= a ==> a == p
    ensures Match(FreeIntoTop(l, p), b.(dv := 0, dvsize := 0), {})
  {
    TakeVictim(l, b, {});
    FreeIntoTopMatch(l, b.(dv := 0, dvsize := 0), {} + {p}, p);
  }
}
