/**
 * The cuckoo hash table: two candidate buckets per key, four cells per bucket, random
 * evictions, and rebuilding into tables of other sizes.
 */
module Cuckoo {
  import opened Basics
  import opened SizeBits

  const CELLS: nat := 4
  const CKH_A: nat := 1103515241
  const CKH_C: nat := 12347

  datatype Cell<K, V> = Empty | Item(key: K, data: V)

  /** Each hash function maps a key and a table size to two words. */
  type Hash<!K> = (K, nat) -> (nat, nat)

  function Bucket1<K>(hash: Hash<K>, lg: nat, k: K): nat {
    hash(k, lg).0 % Pow2(lg)
  }

  function Bucket2<K>(hash: Hash<K>, lg: nat, k: K): nat {
    hash(k, lg).1 % Pow2(lg)
  }

  predicate Hashes<K>(hash: Hash<K>, lg: nat, k: K, b: nat) {
    b == Bucket1(hash, lg, k) || b == Bucket2(hash, lg, k)
  }

  /** The items of a table, empty cells left out. */
  ghost function Items<K, V>(tab: seq<Cell<K, V>>): multiset<Cell<K, V>> {
    multiset(tab)[Empty := 0]
  }

  ghost function Pairs<K, V>(m: map<K, V>): set<Cell<K, V>> {
    set k | k in m :: Item(k, m[k])
  }

  /** The items a finite map stands for. */
  ghost function ItemsOf<K, V>(m: map<K, V>): multiset<Cell<K, V>> {
    multiset(Pairs(m))
  }

  /** Every item lies in one of its two buckets. */
  ghost predicate Placed<K, V>(hash: Hash<K>, lg: nat, tab: seq<Cell<K, V>>) {
    && |tab| == CELLS * Pow2(lg)
    && forall c {:trigger tab[c]} :: 0 <= c < |tab| && tab[c].Item? ==> Hashes(hash, lg, tab[c].key, c / CELLS)
  }

  // --------------------------------------------------------------------------
  // Items and maps
  // --------------------------------------------------------------------------

  lemma ItemsPut<K, V>(tab: seq<Cell<K, V>>, c: nat, x: Cell<K, V>)
    requires c < |tab| && x.Item?
    ensures tab[c].Empty? ==> Items(tab[c := x]) == Items(tab) + multiset{x}
    ensures tab[c].Item? ==> Items(tab[c := x]) + multiset{tab[c]} == Items(tab) + multiset{x}
  {
    assert multiset(tab[c := x]) == multiset(tab) - multiset{tab[c]} + multiset{x};
    assert tab[c] in multiset(tab);
  }

  lemma ItemsClear<K, V>(tab: seq<Cell<K, V>>, c: nat)
    requires c < |tab| && tab[c].Item?
    ensures Items(tab[c := Empty]) + multiset{tab[c]} == Items(tab)
  {
    assert multiset(tab[c := Empty]) == multiset(tab) - multiset{tab[c]} + multiset{Empty};
    assert tab[c] in multiset(tab);
  }

  lemma ItemsSplit<K, V>(s: seq<Cell<K, V>>, i: nat)
    requires i < |s|
    ensures Items(s[..i + 1]) == Items(s[..i]) + if s[i].Item? then multiset{s[i]} else multiset{}
  {
    assert s[..i + 1] == s[..i] + [s[i]];
  }

  lemma ItemsAt<K, V>(tab: seq<Cell<K, V>>, x: Cell<K, V>)
    requires x.Item?
    ensures x in Items(tab) <==> exists c :: 0 <= c < |tab| && tab[c] == x
  {
    assert x in Items(tab) <==> x in tab;
  }

  lemma ItemsOfPut<K, V>(m: map<K, V>, k: K, v: V)
    requires k !in m
    ensures ItemsOf(m[k := v]) == ItemsOf(m) + multiset{Item(k, v)}
  {
    var m' := m[k := v];
    assert Pairs(m') == Pairs(m) + {Item(k, v)} by {
      forall x | x in Pairs(m) ensures x in Pairs(m') { assert x.key in m'; }
      assert k in m';
    }
    assert Item(k, v) !in Pairs(m);
  }

  lemma ItemsOfDrop<K, V>(m: map<K, V>, k: K)
    requires k in m
    ensures ItemsOf(m - {k}) + multiset{Item(k, m[k])} == ItemsOf(m)
  {
    ItemsOfPut(m - {k}, k, m[k]);
    assert (m - {k})[k := m[k]] == m;
  }

  lemma InItemsOf<K, V>(m: map<K, V>, x: Cell<K, V>)
    ensures x in ItemsOf(m) <==> x.Item? && x.key in m && m[x.key] == x.data
  {
    if x.Item? && x.key in m && m[x.key] == x.data {
      assert Item(x.key, m[x.key]) == x;
    }
  }

  lemma {:induction false} ItemsOfSize<K, V>(m: map<K, V>)
    ensures |ItemsOf(m)| == |m|
    decreases |m|
  {
    if m != map[] {
      var k :| k in m;
      ItemsOfDrop(m, k);
      assert |m - {k}| == |m| - 1 by { assert (m - {k}).Keys == m.Keys - {k}; }
      ItemsOfSize(m - {k});
    }
  }

  // --------------------------------------------------------------------------
  // The table
  // --------------------------------------------------------------------------

  lemma CellInBucket(c: nat, b: nat, i: nat)
    requires i < CELLS && c == b * CELLS + i
    ensures c / CELLS == b
  {
  }

  ghost predicate AllFull<K, V>(tab: seq<Cell<K, V>>) {
    forall c :: 0 <= c < |tab| ==> tab[c].Item?
  }

  /** A table with as many items as cells has no empty cell. */
  lemma FullTable<K, V>(tab: seq<Cell<K, V>>)
    requires |Items(tab)| == |tab|
    ensures AllFull(tab)
  {
    assert multiset(tab)[Empty := 0] == multiset(tab) - multiset{}[Empty := multiset(tab)[Empty]];
    forall c | 0 <= c < |tab| ensures tab[c].Item? {
      assert tab[c] in multiset(tab);
    }
  }

  /** The cell tried in round `i` when the search of a bucket starts at `offset`. */
  function Slot(bucket: nat, offset: nat, i: nat): nat {
    bucket * CELLS + (i + offset) % CELLS
  }

  /** The rounds visit every cell of the bucket. */
  lemma SlotFor(bucket: nat, offset: nat, j: nat) returns (i: nat)
    requires offset < CELLS && j / CELLS == bucket
    ensures i < CELLS && Slot(bucket, offset, i) == j
  {
    var t := j % CELLS;
    i := if t >= offset then t - offset else t + CELLS - offset;
  }

  lemma BucketInTable(lg: nat, b: nat, n: nat)
    requires b < Pow2(lg) && n == CELLS * Pow2(lg)
    ensures b * CELLS + CELLS <= n
  {
  }

  lemma ItemsAppend<K, V>(s: seq<Cell<K, V>>, i: nat)
    requires i <= |s|
    ensures Items(s) == Items(s[..i]) + Items(s[i..])
  {
    assert s == s[..i] + s[i..];
  }

  /** A prefix with as many items as the whole has all of them. */
  lemma AllItems<K, V>(s: seq<Cell<K, V>>, i: nat)
    requires i <= |s| && |Items(s[..i])| == |Items(s)|
    ensures Items(s[..i]) == Items(s)
  {
    ItemsAppend(s, i);
  }

  /** A prefix with fewer items is a proper prefix. */
  lemma MoreItems<K, V>(s: seq<Cell<K, V>>, i: nat)
    requires i <= |s| && |Items(s[..i])| < |Items(s)|
    ensures i < |s|
  {
    assert s[..|s|] == s;
  }

  lemma NoItems<K, V>(s: seq<Cell<K, V>>)
    requires forall c :: 0 <= c < |s| ==> s[c] == Empty
    ensures Items(s) == multiset{}
  {
    forall x | x in multiset(s) ensures x == Empty { assert x in s; }
  }

  lemma SameCount<T>(a: multiset<T>, b: multiset<T>, x: T, y: T)
    requires b + multiset{y} == a + multiset{x}
    ensures |a| == |b|
  {
    assert |b + multiset{y}| == |b| + 1 && |a + multiset{x}| == |a| + 1;
  }

  /** The item in hand is one of the pairs, and the table holds the others. */
  lemma HandIsKnown<K, V>(all: map<K, V>, items: multiset<Cell<K, V>>, x: Cell<K, V>)
    requires items + multiset{x} == ItemsOf(all)
    ensures x.Item? && x.key in all && items == ItemsOf(all - {x.key})
  {
    assert x in items + multiset{x};
    InItemsOf(all, x);
    ItemsOfDrop(all, x.key);
    CancelOne(items, ItemsOf(all - {x.key}), x);
  }

  /** With the new item still in cell `c0`, the item in hand is one of the old ones. */
  lemma HandIsOld<K, V>(items: multiset<Cell<K, V>>, before: multiset<Cell<K, V>>, tab: seq<Cell<K, V>>, c0: nat, x: Cell<K, V>)
    requires c0 < |tab| && tab[c0].Item? && items == Items(tab) && items + multiset{x} == before + multiset{tab[c0]}
    ensures x in before
  {
    var x0 := tab[c0];
    ItemsAt(tab, x0);
    assert (items + multiset{x})[x] == (before + multiset{x0})[x];
  }

  lemma CancelOne<T>(a: multiset<T>, b: multiset<T>, x: T)
    requires a + multiset{x} == b + multiset{x}
    ensures a == b
  {
    assert a + multiset{x} - multiset{x} == a;
    assert b + multiset{x} - multiset{x} == b;
  }

  /** What a search of the table says about the map. */
  lemma FoundIsMapped<K, V>(m: map<K, V>, s: seq<Cell<K, V>>, c: nat)
    requires Items(s) == ItemsOf(m) && c < |s| && s[c].Item?
    ensures s[c].key in m && m[s[c].key] == s[c].data
  {
    ItemsAt(s, s[c]);
    InItemsOf(m, s[c]);
  }

  lemma MissingIsUnmapped<K, V>(m: map<K, V>, s: seq<Cell<K, V>>, key: K)
    requires Items(s) == ItemsOf(m) && forall j :: 0 <= j < |s| && s[j].Item? ==> s[j].key != key
    ensures key !in m
  {
    if key in m {
      InItemsOf(m, Item(key, m[key]));
      ItemsAt(s, Item(key, m[key]));
    }
  }

  lemma ClearedItems<K, V>(m: map<K, V>, s: seq<Cell<K, V>>, c: nat)
    requires Items(s) == ItemsOf(m) && c < |s| && s[c].Item?
    ensures s[c].key in m && Items(s[c := Empty]) == ItemsOf(m - {s[c].key}) && |Items(s)| == |Items(s[c := Empty])| + 1
  {
    FoundIsMapped(m, s, c);
    ItemsClear(s, c);
    HandIsKnown(m, Items(s[c := Empty]), s[c]);
    assert |Items(s[c := Empty]) + multiset{s[c]}| == |Items(s[c := Empty])| + 1;
  }

  lemma GapHasNone<K, V>(s: seq<Cell<K, V>>, i: nat, j: nat)
    requires i <= j <= |s| && forall c :: i <= c < j ==> s[c].Empty?
    ensures Items(s[..j]) == Items(s[..i])
  {
    NoItems(s[i..j]);
    ItemsAppend(s[..j], i);
    assert s[..j][..i] == s[..i] && s[..j][i..] == s[i..j];
  }

  lemma NextItem<K, V>(s: seq<Cell<K, V>>, i: nat, next: nat)
    requires i < next <= |s| && s[next - 1].Item? && forall c :: i <= c < next - 1 ==> s[c].Empty?
    ensures Items(s[..next]) == Items(s[..i]) + multiset{s[next - 1]}
  {
    GapHasNone(s, i, next - 1);
    ItemsSplit(s, next - 1);
  }

  // --------------------------------------------------------------------------
  // The table as a finite map
  // --------------------------------------------------------------------------

  /** An operation, with what the environment allows: see the methods. */
  datatype Op<K, V> =
    | Put(key: K, data: V, limit: nat, avail: nat)
    | Drop(key: K, limit: nat, granted: bool)
    | Get(key: K)

  function After<K, V>(m: map<K, V>, op: Op<K, V>): map<K, V> {
    match op
    case Put(key, data, _, _) => if key in m then m else m[key := data]
    case Drop(key, _, _) => m - {key}
    case Get(_) => m
  }

  function Answer<K, V>(m: map<K, V>, op: Op<K, V>): Option<V> {
    if !op.Put? && op.key in m then Some(m[op.key]) else None
  }

  ghost function Final<K, V>(m: map<K, V>, ops: seq<Op<K, V>>): map<K, V> {
    if ops == [] then m else After(Final(m, ops[..|ops| - 1]), ops[|ops| - 1])
  }

  ghost function Answers<K, V>(m: map<K, V>, ops: seq<Op<K, V>>): seq<Option<V>> {
    if ops == [] then []
    else Answers(m, ops[..|ops| - 1]) + [Answer(Final(m, ops[..|ops| - 1]), ops[|ops| - 1])]
  }

  class Table<K(==), V> {
    const hash: Hash<K>
    var prng: nat
    var count: nat
    const lgMin: nat
    var lg: nat
    var tab: array<Cell<K, V>>

    /** Items are where their hashes put them, and are counted. */
    ghost predicate Shape()
      reads this, tab
    {
      Placed(hash, lg, tab[..]) && count == |Items(tab[..])|
    }

    /** The table represents the finite map `m`. */
    ghost predicate Valid(m: map<K, V>)
      reads this, tab
    {
      Shape() && lgMin <= lg && Items(tab[..]) == ItemsOf(m)
    }

    /**
     * ckh_new: the smallest power-of-two table that `minitems` items fill to less than
     * three quarters.  A request whose table cannot be allocated is not modelled.
     */
    constructor (hash: Hash<K>, minitems: nat)
      requires minitems > 0
      ensures fresh(tab) && this.hash == hash && lg == lgMin && Valid(map[])
      ensures 4 * minitems < 3 * CELLS * Pow2(lg)
      ensures lg > 0 ==> 3 * CELLS * Pow2(lg - 1) <= 4 * minitems
    {
      var mincells := (minitems + (3 - minitems % 3)) / 3 * 4;
      var k := 0;
      while CELLS * Pow2(k) < mincells
        invariant k > 0 ==> CELLS * Pow2(k - 1) < mincells
        decreases mincells as int - Pow2(k)
      {
        k := k + 1;
      }
      this.hash, prng, count, lgMin, lg := hash, 42, 0, k, k;
      tab := new Cell<K, V>[CELLS * Pow2(k)](_ => Empty);
      new;
      NoItems(tab[..]);
    }

    /** prng32 with a two-bit range. */
    method Draw() returns (r: nat)
      modifies this`prng
      ensures r < CELLS
    {
      prng := (prng * CKH_A + CKH_C) % TWO_32;
      r := prng / 0x4000_0000;
    }

    /** ckh_bucket_search. */
    method BucketSearch(bucket: nat, key: K) returns (c: Option<nat>)
      requires Placed(hash, lg, tab[..]) && bucket < Pow2(lg)
      ensures c.Some? ==> c.value < tab.Length && tab[c.value].Item? && tab[c.value].key == key
      ensures c.None? ==> forall j :: 0 <= j < tab.Length && j / CELLS == bucket && tab[j].Item? ==> tab[j].key != key
    {
      BucketInTable(lg, bucket, tab.Length);
      for i := 0 to CELLS
        invariant forall j :: bucket * CELLS <= j < bucket * CELLS + i && tab[j].Item? ==> tab[j].key != key
      {
        var cell := tab[bucket * CELLS + i];
        if cell.Item? && cell.key == key {
          return Some(bucket * CELLS + i);
        }
      }
      c := None;
    }

    /** ckh_isearch: both candidate buckets are searched, and nothing else needs to be. */
    method ISearch(key: K) returns (c: Option<nat>)
      requires Placed(hash, lg, tab[..])
      ensures c.Some? ==> c.value < tab.Length && tab[c.value].Item? && tab[c.value].key == key
      ensures c.None? ==> forall j :: 0 <= j < tab.Length && tab[j].Item? ==> tab[j].key != key
    {
      c := BucketSearch(Bucket1(hash, lg, key), key);
      if c.None? {
        c := BucketSearch(Bucket2(hash, lg, key), key);
        if c.None? {
          forall j | 0 <= j < tab.Length && tab[j].Item? ensures tab[j].key != key {
            assert tab[..][j] == tab[j];
          }
        }
      }
    }

    /** ckh_search answers as the map does. */
    method Search(key: K, ghost m: map<K, V>) returns (r: Option<V>)
      requires Valid(m)
      ensures r == if key in m then Some(m[key]) else None
    {
      var c := ISearch(key);
      ghost var s := tab[..];
      if c.Some? {
        FoundIsMapped(m, s, c.value);
        r := Some(tab[c.value].data);
      } else {
        MissingIsUnmapped(m, s, key);
        r := None;
      }
    }

    /**
     * ckh_try_bucket_insert: fill some empty cell of the bucket, looking from a random one;
     * the bucket is full exactly when that fails.
     */
    method TryBucketInsert(bucket: nat, x: Cell<K, V>) returns (full: bool)
      requires Placed(hash, lg, tab[..]) && bucket < Pow2(lg) && x.Item? && Hashes(hash, lg, x.key, bucket)
      modifies this`prng, this`count, tab
      ensures Placed(hash, lg, tab[..])
      ensures !full ==> Items(tab[..]) == old(Items(tab[..])) + multiset{x} && count == old(count) + 1
      ensures full ==> tab[..] == old(tab[..]) && count == old(count)
      ensures full <==> forall j :: 0 <= j < tab.Length && j / CELLS == bucket ==> old(tab[..])[j].Item?
    {
      BucketInTable(lg, bucket, tab.Length);
      var offset := Draw();
      for i := 0 to CELLS
        invariant tab[..] == old(tab[..]) && count == old(count)
        invariant forall j :: 0 <= j < i ==> tab[Slot(bucket, offset, j)].Item?
      {
        var c := Slot(bucket, offset, i);
        if tab[c].Empty? {
          ItemsPut(tab[..], c, x);
          CellInBucket(c, bucket, (i + offset) % CELLS);
          ghost var s := tab[..];
          assert s[c].Empty? && c / CELLS == bucket;
          tab[c] := x;
          assert tab[..] == s[c := x];
          count := count + 1;
          return false;
        }
      }
      forall j | 0 <= j < tab.Length && j / CELLS == bucket ensures tab[j].Item? {
        var i := SlotFor(bucket, offset, j);
      }
      full := true;
    }

    /**
     * ckh_evict_reloc_insert: swap the item in hand with a random one of the full bucket,
     * carry that one to its other bucket, and so on until a bucket has room or the chain
     * comes back to where it started.  No item is lost on the way: what is in the table
     * plus the item in hand never changes.  The new item stays in the cell of the first swap,
     * because the chain stops before it comes back to that bucket; so the item in hand of a
     * chain that fails is an older one.  A chain is also given up after `limit` more steps.
     */
    method EvictReloc(argbucket: nat, x0: Cell<K, V>, limit: nat) returns (stuck: bool, x: Cell<K, V>)
      requires Placed(hash, lg, tab[..]) && argbucket < Pow2(lg) && x0.Item? && Hashes(hash, lg, x0.key, argbucket)
      requires forall j :: 0 <= j < tab.Length && j / CELLS == argbucket ==> tab[j].Item?
      modifies this`prng, this`count, tab
      ensures Placed(hash, lg, tab[..])
      ensures !stuck ==> Items(tab[..]) == old(Items(tab[..])) + multiset{x0} && count == old(count) + 1
      ensures stuck ==> x.Item? && Items(tab[..]) + multiset{x} == old(Items(tab[..])) + multiset{x0} && count == old(count)
      ensures stuck ==> x in old(Items(tab[..]))
      ensures lg == 0 ==> stuck
    {
      var bucket: nat := argbucket;
      ghost var c0: nat := 0;
      x := x0;
      for n := 0 to limit + 1
        invariant Placed(hash, lg, tab[..]) && bucket < Pow2(lg) && x.Item? && Hashes(hash, lg, x.key, bucket)
        invariant forall j :: 0 <= j < tab.Length && j / CELLS == bucket ==> tab[j].Item?
        invariant Items(tab[..]) + multiset{x} == old(Items(tab[..])) + multiset{x0} && count == old(count)
        invariant n == 0 ==> x == x0 && bucket == argbucket && tab[..] == old(tab[..])
        invariant n > 0 ==> lg > 0 && bucket != argbucket && c0 < tab.Length && c0 / CELLS == argbucket && tab[c0] == x0
        invariant n > 0 ==> x in old(Items(tab[..]))
      {
        BucketInTable(lg, bucket, tab.Length);
        var i := Draw();
        var c := bucket * CELLS + i;
        CellInBucket(c, bucket, i);
        c0 := if n == 0 then c else c0;
        x := Swap(c, x);
        HandIsOld(Items(tab[..]), old(Items(tab[..])), tab[..], c0, x);
        var tbucket := Bucket2(hash, lg, x.key);
        if tbucket == bucket {
          tbucket := Bucket1(hash, lg, x.key);
        }
        if tbucket == argbucket {
          return true, x;
        }
        bucket := tbucket;
        var full := TryBucketInsert(bucket, x);
        if !full {
          return false, x;
        }
      }
      stuck := true;
    }

    /** Exchange the item in hand with the one in cell `c`. */
    method Swap(c: nat, x: Cell<K, V>) returns (y: Cell<K, V>)
      requires Placed(hash, lg, tab[..]) && c < tab.Length && tab[c].Item? && x.Item? && Hashes(hash, lg, x.key, c / CELLS)
      modifies tab
      ensures Placed(hash, lg, tab[..]) && y == old(tab[c]) && Hashes(hash, lg, y.key, c / CELLS)
      ensures Items(tab[..]) + multiset{y} == old(Items(tab[..])) + multiset{x}
      ensures tab[c] == x && forall j :: 0 <= j < tab.Length && j != c ==> tab[j] == old(tab[j])
    {
      ghost var s := tab[..];
      ItemsPut(s, c, x);
      y := tab[c];
      assert s[c] == y;
      tab[c] := x;
      assert tab[..] == s[c := x];
    }

    /** ckh_try_insert. */
    method TryInsert(x0: Cell<K, V>, limit: nat) returns (stuck: bool, x: Cell<K, V>)
      requires Placed(hash, lg, tab[..]) && x0.Item?
      modifies this`prng, this`count, tab
      ensures Placed(hash, lg, tab[..])
      ensures !stuck ==> Items(tab[..]) == old(Items(tab[..])) + multiset{x0} && count == old(count) + 1
      ensures stuck ==> x.Item? && Items(tab[..]) + multiset{x} == old(Items(tab[..])) + multiset{x0} && count == old(count)
      ensures stuck ==> x in old(Items(tab[..]))
      ensures lg == 0 ==> (stuck <==> AllFull(old(tab[..])))
    {
      x := x0;
      var full := TryBucketInsert(Bucket1(hash, lg, x0.key), x0);
      if !full {
        return false, x0;
      }
      var bucket := Bucket2(hash, lg, x0.key);
      full := TryBucketInsert(bucket, x0);
      if !full {
        return false, x0;
      }
      stuck, x := EvictReloc(bucket, x0, limit);
    }

    /** ckh_rebuild: move all items of the old table into the new, empty one. */
    method Rebuild(aTab: array<Cell<K, V>>, limit: nat) returns (failed: bool)
      requires Placed(hash, lg, tab[..]) && Items(tab[..]) == multiset{} && aTab != tab && count == |Items(aTab[..])|
      modifies this`prng, this`count, tab
      ensures count == old(count)
      ensures !failed ==> Placed(hash, lg, tab[..]) && Items(tab[..]) == Items(aTab[..])
    {
      var n := count;
      count := 0;
      var i, nins := 0, 0;
      ghost var s := aTab[..];
      while nins < n
        invariant i <= |s| && s == aTab[..] && nins <= n && n == old(count)
        invariant Placed(hash, lg, tab[..]) && Items(tab[..]) == Items(s[..i]) && count == nins == |Items(s[..i])|
        decreases |s| - i
      {
        MoreItems(s, i);
        ItemsSplit(s, i);
        ItemsAppend(s, i + 1);
        if aTab[i].Item? {
          var stuck, x := TryInsert(aTab[i], limit);
          if stuck {
            count := n;
            return true;
          }
          nins := nins + 1;
        }
        i := i + 1;
      }
      AllItems(s, i);
      failed := false;
    }

    /** A new table of 2^k buckets, all cells empty. */
    method NewTable(k: nat) returns (t: array<Cell<K, V>>)
      ensures fresh(t) && t.Length == CELLS * Pow2(k)
      ensures Placed(hash, k, t[..]) && Items(t[..]) == multiset{}
    {
      t := new Cell<K, V>[CELLS * Pow2(k)](_ => Empty);
      NoItems(t[..]);
    }

    /**
     * ckh_grow: double the table until all items fit, backing out of each failed attempt.
     * Tables of more than 2^avail buckets cannot be allocated.
     */
    method Grow(limit: nat, avail: nat) returns (failed: bool)
      requires Shape()
      modifies this
      ensures Shape() && Items(tab[..]) == old(Items(tab[..])) && lg >= old(lg) && count == old(count)
      ensures failed ==> tab == old(tab) && lg == old(lg)
      ensures !failed ==> fresh(tab) && old(lg) < lg <= avail
    {
      var lgPrev, cur, k := lg, tab, lg;
      while true
        invariant tab == cur == old(tab) && lg == lgPrev == old(lg) && k >= lg && count == old(count)
        invariant Shape() && Items(tab[..]) == old(Items(tab[..]))
        decreases avail as int - k
      {
        k := k + 1;
        if k > avail {
          return true;
        }
        var t := NewTable(k);
        tab, lg := t, k;
        var bad := Rebuild(cur, limit);
        if !bad {
          return false;
        }
        tab, lg := cur, lgPrev;
      }
    }

    /** ckh_shrink: try a table of half the size; failure leaves the table as it was. */
    method Shrink(limit: nat, granted: bool)
      requires Shape() && lg > 0
      modifies this
      ensures Shape() && Items(tab[..]) == old(Items(tab[..])) && count == old(count)
      ensures (tab == old(tab) && lg == old(lg)) || (fresh(tab) && lg == old(lg) - 1)
    {
      var lgPrev, cur := lg, tab;
      if !granted {
        return;
      }
      var t := NewTable(lg - 1);
      tab, lg := t, lg - 1;
      var bad := Rebuild(cur, limit);
      if bad {
        tab, lg := cur, lgPrev;
      }
    }

    /** One attempt to insert the item in hand, when it and the table make up the map `all`. */
    method Attempt(x: Cell<K, V>, limit: nat, ghost all: map<K, V>) returns (stuck: bool, y: Cell<K, V>)
      requires Shape() && x.Item? && Items(tab[..]) + multiset{x} == ItemsOf(all)
      modifies this`prng, this`count, tab
      ensures Shape() && (!stuck ==> Items(tab[..]) == ItemsOf(all))
      ensures stuck ==> y.Item? && y.key in all && Items(tab[..]) == ItemsOf(all - {y.key}) && Items(tab[..]) + multiset{y} == ItemsOf(all)
      ensures stuck ==> y in old(Items(tab[..]))
      ensures lg == 0 ==> (stuck <==> AllFull(old(tab[..])))
    {
      ghost var before := Items(tab[..]);
      stuck, y := TryInsert(x, limit);
      if stuck {
        SameCount(before, Items(tab[..]), x, y);
        HandIsKnown(all, Items(tab[..]), y);
      }
    }

    lemma OneBucketFull(m: map<K, V>)
      requires Valid(m)
      ensures Items(tab[..]) == ItemsOf(m)
      ensures lg == 0 ==> (|m| == CELLS <==> AllFull(tab[..]))
    {
      ItemsOfSize(m);
      if lg == 0 && |m| == CELLS {
        FullTable(tab[..]);
      }
      if AllFull(tab[..]) {
        assert Items(tab[..]) == multiset(tab[..]);
      }
    }

    /**
     * ckh_insert.  On success the new pair is in the table.  On failure the table holds the
     * old pairs and the new one except the item in hand.  That is an older one, unless the
     * table has grown in between.
     */
    method Insert(key: K, data: V, limit: nat, avail: nat, ghost m: map<K, V>) returns (failed: bool, ghost hand: K)
      requires Valid(m) && key !in m
      modifies this, tab
      ensures !failed ==> Valid(m[key := data])
      ensures failed ==> hand in m[key := data] && Valid(m[key := data] - {hand})
      ensures failed ==> old(lg) <= lg && (hand == key ==> old(lg) < lg <= avail)
      ensures old(lg) == 0 && |m| == CELLS && avail == 0 ==> failed
      ensures old(lg) == 0 && |m| < CELLS ==> !failed && lg == 0
      ensures tab == old(tab) || fresh(tab)
    {
      ghost var all := m[key := data];
      ItemsOfPut(m, key, data);
      var x := Item(key, data);
      hand := key;
      OneBucketFull(m);
      while true
        invariant old(lg) <= lg && (old(lg) < lg ==> lg <= avail)
        invariant lg == old(lg) ==> x == Item(key, data) && tab == old(tab) && tab[..] == old(tab[..])
        invariant old(lg) == 0 && |m| < CELLS ==> lg == 0
        invariant Shape() && lgMin <= lg && x.Item? && Items(tab[..]) + multiset{x} == ItemsOf(all)
        invariant tab == old(tab) || fresh(tab)
        decreases avail as int - lg
      {
        var stuck, y := Attempt(x, limit, all);
        if !stuck {
          return false, hand;
        }
        InItemsOf(m, y);
        x, hand := y, y.key;
        var bad := Grow(limit, avail);
        if bad {
          return true, hand;
        }
      }
    }

    /** ckh_remove: the pair is gone; the table may also have been halved. */
    method Remove(key: K, limit: nat, granted: bool, ghost m: map<K, V>) returns (r: Option<V>)
      requires Valid(m)
      modifies this, tab
      ensures r == if key in m then Some(m[key]) else None
      ensures Valid(m - {key})
      ensures tab == old(tab) || fresh(tab)
    {
      var c := ISearch(key);
      ghost var s := tab[..];
      if c.None? {
        MissingIsUnmapped(m, s, key);
        assert m - {key} == m;
        return None;
      }
      FoundIsMapped(m, s, c.value);
      ClearedItems(m, s, c.value);
      r := Some(tab[c.value].data);
      tab[c.value] := Empty;
      assert tab[..] == s[c.value := Empty];
      count := count - 1;
      if count < Pow2(lg) && lg > lgMin {
        Shrink(limit, granted);
      }
    }

    /** ckh_iter: the next occupied cell from `tabind` on. */
    method Iter(tabind: nat) returns (found: bool, x: Cell<K, V>, next: nat)
      requires tabind <= tab.Length
      ensures found ==> tabind < next <= tab.Length && x == tab[next - 1] && x.Item? && forall j :: tabind <= j < next - 1 ==> tab[j].Empty?
      ensures !found ==> forall j :: tabind <= j < tab.Length ==> tab[j].Empty?
    {
      x, next := Empty, tabind;
      for i := tabind to tab.Length
        invariant forall j :: tabind <= j < i ==> tab[j].Empty?
      {
        if tab[i].Item? {
          return true, tab[i], i + 1;
        }
      }
      found := false;
    }

    /** Iterating from the start yields each pair of the map exactly once. */
    method IterAll(ghost m: map<K, V>) returns (all: seq<Cell<K, V>>)
      requires Valid(m)
      ensures multiset(all) == ItemsOf(m)
    {
      all := [];
      var i := 0;
      ghost var s := tab[..];
      assert s[..0] == [];
      NoItems(s[..0]);
      while true
        invariant i <= |s| && s == tab[..] && multiset(all) == Items(s[..i])
        decreases |s| - i
      {
        var found, x, next := Iter(i);
        if !found {
          GapHasNone(s, i, |s|);
          assert s[..|s|] == s;
          return;
        }
        NextItem(s, i, next);
        all := all + [x];
        i := next;
      }
    }

    /**
     * Any sequence of operations, up to the first insertion that fails: every answer is the
     * one a finite map would give, and the table represents that map.
     */
    method Run(ops: seq<Op<K, V>>, ghost m: map<K, V>) returns (done: nat, answers: seq<Option<V>>, ghost hand: Option<K>)
      requires Valid(m)
      modifies this, tab
      ensures done <= |ops| && answers == Answers(m, ops[..done])
      ensures done == |ops| ==> Valid(Final(m, ops))
      ensures done < |ops| ==> Lost(Final(m, ops[..done]), ops[done], hand)
    {
      answers := [];
      hand := None;
      ghost var now := m;
      assert ops[..0] == [];
      for i := 0 to |ops|
        invariant tab == old(tab) || fresh(tab)
        invariant now == Final(m, ops[..i]) && answers == Answers(m, ops[..i]) && Valid(now)
      {
        assert ops[..i + 1][..i] == ops[..i];
        var failed, answer, lost := Perform(ops[i], now);
        if failed {
          return i, answers, lost;
        }
        answers := answers + [answer];
        now := After(now, ops[i]);
      }
      assert ops[..|ops|] == ops;
      done := |ops|;
    }

    /**
     * An insertion that failed: exactly the item in hand is missing.  It is an older one unless
     * the table could grow and has grown.
     */
    ghost predicate Lost(m: map<K, V>, op: Op<K, V>, hand: Option<K>)
      reads this, tab
    {
      && op.Put? && op.key !in m && hand.Some? && hand.value in After(m, op) && Valid(After(m, op) - {hand.value})
      && (hand.value == op.key ==> lgMin < lg <= op.avail)
    }

    /** One operation; a key that is present is not inserted again. */
    method Perform(op: Op<K, V>, ghost m: map<K, V>) returns (failed: bool, answer: Option<V>, ghost hand: Option<K>)
      requires Valid(m)
      modifies this, tab
      ensures !failed ==> Valid(After(m, op)) && answer == Answer(m, op)
      ensures failed ==> Lost(m, op, hand) && (hand.value == op.key ==> old(lg) < lg)
      ensures tab == old(tab) || fresh(tab)
    {
      failed, answer, hand := false, None, None;
      match op {
        case Put(key, data, limit, avail) =>
          var there := Search(key, m);
          if there.None? {
            var bad, item := Insert(key, data, limit, avail, m);
            failed, hand := bad, Some(item);
          }
        case Drop(key, limit, granted) => answer := Remove(key, limit, granted, m);
        case Get(key) => answer := Search(key, m);
      }
    }
  }

  ghost function UpTo(n: nat): (m: map<nat, nat>)
    ensures |m| == n && forall k :: k in m <==> 0 <= k < n
  {
    if n == 0 then map[] else
      assert UpTo(n - 1)[n - 1 := 0].Keys == UpTo(n - 1).Keys + {n - 1};
      UpTo(n - 1)[n - 1 := 0]
  }

  /** A failed insertion that loses an older item: the fifth into a table that cannot grow. */
  method FifthItem(hash: Hash<nat>, limit: nat) returns (t: Table<nat, nat>, failed: bool, ghost hand: nat)
    ensures failed && hand < 4 && t.Valid(UpTo(5) - {hand})
  {
    t := new Table(hash, 1);
    for i := 0 to 4
      invariant fresh(t) && fresh(t.tab) && t.Valid(UpTo(i)) && t.lg == 0
    {
      var _, _ := t.Insert(i, 0, limit, 0, UpTo(i));
    }
    failed, hand := t.Insert(4, 0, limit, 0, UpTo(4));
  }
}
