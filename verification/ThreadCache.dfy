/**
 * A bin of a thread's cache.  Flushing gives objects back to the arenas they came from, one
 * arena at a time; objects of other arenas are moved to the front for a later pass.
 */
module ThreadCache {
  import opened Basics
  import opened SizeBits

  type Ptr = nat
  type ArenaId = nat

  /** An object given back under an arena's lock. */
  datatype Return = Return(arena: ArenaId, ptr: Ptr)

  /** The objects of an arena, or those of all others, in order. */
  function Of(owner: Ptr -> ArenaId, s: seq<Ptr>, a: ArenaId, mine: bool): (r: seq<Ptr>)
    ensures |r| <= |s| && forall p :: p in r <==> p in s && (owner(p) == a <==> mine)
  {
    if s == [] then []
    else
      var r := Of(owner, s[..|s| - 1], a, mine);
      var p := s[|s| - 1];
      assert s == s[..|s| - 1] + [p];
      if (owner(p) == a) == mine then r + [p] else r
  }

  /** The two parts together are the whole. */
  lemma {:induction false} Parts(owner: Ptr -> ArenaId, s: seq<Ptr>, a: ArenaId)
    ensures multiset(Of(owner, s, a, true)) + multiset(Of(owner, s, a, false)) == multiset(s)
    ensures |Of(owner, s, a, true)| + |Of(owner, s, a, false)| == |s|
  {
    if s != [] {
      var t, p := s[..|s| - 1], s[|s| - 1];
      Parts(owner, t, a);
      assert s == t + [p];
      assert multiset(s) == multiset(t) + multiset{p};
      if owner(p) == a {
        assert Of(owner, s, a, true) == Of(owner, t, a, true) + [p] && Of(owner, s, a, false) == Of(owner, t, a, false);
      } else {
        assert Of(owner, s, a, false) == Of(owner, t, a, false) + [p] && Of(owner, s, a, true) == Of(owner, t, a, true);
      }
    }
  }

  /** The first object's arena gets at least that object. */
  lemma {:induction false} FirstGoes(owner: Ptr -> ArenaId, s: seq<Ptr>)
    requires s != []
    ensures |Of(owner, s, owner(s[0]), true)| > 0
  {
    if |s| > 1 {
      FirstGoes(owner, s[..|s| - 1]);
    }
  }

  lemma PassShrinks(owner: Ptr -> ArenaId, s: seq<Ptr>)
    requires s != []
    ensures |Of(owner, s, owner(s[0]), false)| < |s|
  {
    Parts(owner, s, owner(s[0]));
    FirstGoes(owner, s);
  }

  function Returns(a: ArenaId, s: seq<Ptr>): seq<Return> {
    seq(|s|, i requires 0 <= i < |s| => Return(a, s[i]))
  }

  function Ptrs(s: seq<Return>): (r: seq<Ptr>)
    ensures |r| == |s| && forall i :: 0 <= i < |s| ==> r[i] == s[i].ptr
  {
    seq(|s|, i requires 0 <= i < |s| => s[i].ptr)
  }

  lemma PtrsAppend(s: seq<Return>, a: ArenaId, t: seq<Ptr>)
    ensures multiset(Ptrs(s + Returns(a, t))) == multiset(Ptrs(s)) + multiset(t)
  {
    assert Ptrs(s + Returns(a, t)) == Ptrs(s) + t;
  }

  /** Each object went to its own arena, in a pass for that arena. */
  ghost predicate RightArenas(owner: Ptr -> ArenaId, returned: seq<Return>, passes: seq<ArenaId>) {
    forall i :: 0 <= i < |returned| ==> returned[i].arena == owner(returned[i].ptr) && returned[i].arena in passes
  }

  class Bin {
    const owner: Ptr -> ArenaId
    /** tcache_bin_info: a fill brings ncachedMax >> lgFillDiv objects. */
    const ncachedMax: nat
    const avail: array<Ptr>
    var ncached: nat
    var lowWater: int
    var lgFillDiv: nat

    ghost predicate Valid()
      reads this
    {
      ncached <= avail.Length && -1 <= lowWater <= ncached && lgFillDiv >= 1 && Prefix(ncachedMax, lgFillDiv) >= 1
    }

    ghost function Cached(): seq<Ptr>
      requires Valid()
      reads this, avail
    {
      avail[..ncached]
    }

    constructor (owner: Ptr -> ArenaId, ncachedMax: nat)
      requires ncachedMax >= 2
      ensures Valid() && fresh(avail) && Cached() == []
    {
      this.owner, this.ncachedMax := owner, ncachedMax;
      avail := new Ptr[ncachedMax];
      ncached, lowWater, lgFillDiv := 0, 0, 1;
    }

    /** One pass of the flush loop, under the lock of arena `a`. */
    method Pass(a: ArenaId, nflush: nat) returns (ndeferred: nat, given: seq<Ptr>)
      requires nflush <= avail.Length
      modifies avail
      ensures ndeferred <= nflush && avail[nflush..] == old(avail[nflush..])
      ensures avail[..ndeferred] == Of(owner, old(avail[..nflush]), a, false)
      ensures given == Of(owner, old(avail[..nflush]), a, true)
    {
      ndeferred, given := 0, [];
      ghost var s := avail[..];
      for i := 0 to nflush
        invariant ndeferred <= i && s == old(avail[..])
        invariant avail[i..] == s[i..]
        invariant avail[..ndeferred] == Of(owner, s[..i], a, false) && given == Of(owner, s[..i], a, true)
      {
        var ptr := avail[i];
        assert ptr == s[i] && s[..i + 1] == s[..i] + [s[i]] && s[..i + 1][..i] == s[..i];
        if owner(ptr) == a {
          given := given + [ptr];
        } else {
          avail[ndeferred] := ptr;
          ndeferred := ndeferred + 1;
        }
      }
      assert s[..nflush] == old(avail[..nflush]);
    }

    /**
     * tcache_bin_flush_small and tcache_bin_flush_large: all but the last `rem` objects go
     * back, each once and to its own arena; each arena's lock is taken in one pass at most.
     */
    method Flush(rem: nat) returns (returned: seq<Return>, passes: seq<ArenaId>)
      requires Valid() && rem <= ncached
      modifies this`ncached, this`lowWater, avail
      ensures Valid() && ncached == rem && Cached() == old(Cached())[old(ncached) - rem..]
      ensures multiset(Ptrs(returned)) == multiset(old(Cached())[..old(ncached) - rem])
      ensures RightArenas(owner, returned, passes) && Distinct(passes)
      ensures lowWater == if rem < old(lowWater) then rem else old(lowWater)
    {
      var nflush: nat := ncached - rem;
      ghost var s := avail[..];
      returned, passes := GiveBack(nflush);
      assert avail[nflush..ncached] == avail[nflush..][..rem];
      assert s[..ncached][nflush..] == s[nflush..][..rem] && s[..ncached][..nflush] == s[..nflush];
      Slide(ncached - rem, rem);
      ncached := rem;
      if ncached < lowWater {
        lowWater := ncached;
      }
    }

    /** The flush loop. */
    method GiveBack(n: nat) returns (returned: seq<Return>, passes: seq<ArenaId>)
      requires n <= avail.Length
      modifies avail
      ensures avail[n..] == old(avail[n..]) && multiset(Ptrs(returned)) == multiset(old(avail[..n]))
      ensures RightArenas(owner, returned, passes) && Distinct(passes)
    {
      returned, passes := [], [];
      var nflush: nat := n;
      while nflush > 0
        invariant nflush <= n && avail[n..] == old(avail[n..])
        invariant multiset(Ptrs(returned)) + multiset(avail[..nflush]) == multiset(old(avail[..n]))
        invariant RightArenas(owner, returned, passes) && Distinct(passes) && forall i :: 0 <= i < nflush ==> owner(avail[i]) !in passes
        decreases nflush
      {
        nflush, returned, passes := PassOn(nflush, n, returned, passes);
      }
      assert avail[..nflush] == [];
    }

    /** One round of the flush loop. */
    method PassOn(nflush: nat, n: nat, returned: seq<Return>, passes: seq<ArenaId>) returns (left: nat, returned': seq<Return>, passes': seq<ArenaId>)
      requires 0 < nflush <= n <= avail.Length && RightArenas(owner, returned, passes) && Distinct(passes)
      requires forall i :: 0 <= i < nflush ==> owner(avail[i]) !in passes
      modifies avail
      ensures left < nflush && avail[n..] == old(avail[n..])
      ensures multiset(Ptrs(returned')) + multiset(avail[..left]) == multiset(Ptrs(returned)) + multiset(old(avail[..nflush]))
      ensures RightArenas(owner, returned', passes') && Distinct(passes') && forall i :: 0 <= i < left ==> owner(avail[i]) !in passes'
    {
      var a := owner(avail[0]);
      ghost var t := avail[..nflush];
      PassShrinks(owner, t);
      var ndeferred, given := Pass(a, nflush);
      assert avail[n..] == old(avail[n..]) by {
        assert avail[n..] == avail[nflush..][n - nflush..];
      }
      AfterPass(owner, t, avail[..ndeferred], given, a, returned, passes);
      returned' := returned + Returns(a, given);
      passes' := passes + [a];
      left := ndeferred;
    }

    /** memmove of the objects that stay to the front. */
    method Slide(from: nat, n: nat)
      requires from + n <= avail.Length
      modifies avail
      ensures avail[..n] == old(avail[from..from + n])
    {
      for i := 0 to n
        invariant avail[..i] == old(avail[from..from + i])
        invariant avail[i..] == old(avail[i..])
      {
        assert avail[from + i] == old(avail[from + i]) by {
          assert avail[i..][from] == old(avail[i..])[from];
        }
        avail[i] := avail[from + i];
      }
    }

    /**
     * tcache_event_hard: three quarters of the objects not used since the last event go back,
     * rounded up, and the fill count adapts but stays at least one.
     */
    method EventHard() returns (returned: seq<Return>, passes: seq<ArenaId>)
      requires Valid()
      modifies this, avail
      ensures Valid() && lowWater == ncached && Prefix(ncachedMax, lgFillDiv) >= 1
      ensures old(lowWater) <= 0 ==> returned == [] && Cached() == old(Cached())
      ensures old(lowWater) > 0 ==> 3 * old(lowWater) <= 4 * (old(ncached) - ncached) < 3 * old(lowWater) + 4
      ensures multiset(Ptrs(returned)) == multiset(old(Cached())[..old(ncached) - ncached]) && Cached() == old(Cached())[old(ncached) - ncached..]
      ensures old(lowWater) > 0 ==> old(lgFillDiv) <= lgFillDiv <= old(lgFillDiv) + 1
      ensures old(lowWater) < 0 ==> lgFillDiv == if old(lgFillDiv) > 1 then old(lgFillDiv) - 1 else 1
    {
      var unused := lowWater;
      returned, passes := [], [];
      if unused > 0 {
        returned, passes := FlushUnused();
      }
      AdaptFill(unused);
      lowWater := ncached;
    }

    /** Three quarters of the unused objects, rounded up, go back. */
    method FlushUnused() returns (returned: seq<Return>, passes: seq<ArenaId>)
      requires Valid() && lowWater > 0
      modifies this`ncached, this`lowWater, avail
      ensures Valid() && 3 * old(lowWater) <= 4 * (old(ncached) - ncached) < 3 * old(lowWater) + 4
      ensures multiset(Ptrs(returned)) == multiset(old(Cached())[..old(ncached) - ncached]) && Cached() == old(Cached())[old(ncached) - ncached..]
    {
      returned, passes := Flush(ncached - lowWater + lowWater / 4);
    }

    /** The fill count is halved when objects were unused, and doubled when there were too few. */
    method AdaptFill(unused: int)
      requires Valid()
      modifies this`lgFillDiv
      ensures Valid()
      ensures unused > 0 ==> old(lgFillDiv) <= lgFillDiv <= old(lgFillDiv) + 1
      ensures unused == 0 ==> lgFillDiv == old(lgFillDiv)
      ensures unused < 0 ==> lgFillDiv == if old(lgFillDiv) > 1 then old(lgFillDiv) - 1 else 1
    {
      if unused > 0 {
        if Prefix(ncachedMax, lgFillDiv + 1) >= 1 {
          lgFillDiv := lgFillDiv + 1;
        }
      } else if unused < 0 {
        if lgFillDiv > 1 {
          lgFillDiv := lgFillDiv - 1;
        }
      }
    }
  }

  /** After a pass no object of its arena is left, so no arena comes up twice. */
  lemma AfterPass(owner: Ptr -> ArenaId, t: seq<Ptr>, left: seq<Ptr>, given: seq<Ptr>, a: ArenaId, returned: seq<Return>, passes: seq<ArenaId>)
    requires t != [] && a == owner(t[0]) && left == Of(owner, t, a, false) && given == Of(owner, t, a, true)
    requires RightArenas(owner, returned, passes) && Distinct(passes) && forall i :: 0 <= i < |t| ==> owner(t[i]) !in passes
    ensures Distinct(passes + [a]) && forall i :: 0 <= i < |left| ==> owner(left[i]) !in passes + [a]
    ensures RightArenas(owner, returned + Returns(a, given), passes + [a])
    ensures multiset(Ptrs(returned + Returns(a, given))) + multiset(left) == multiset(Ptrs(returned)) + multiset(t)
  {
    Parts(owner, t, a);
    PtrsAppend(returned, a, given);
    forall i | 0 <= i < |left| ensures owner(left[i]) !in passes + [a] {
      assert left[i] in left;
      assert left[i] in t;
    }
    forall i | 0 <= i < |given| ensures owner(given[i]) == a {
      assert given[i] in given;
    }
  }
}
