/**
 * Profiling contexts shared by threads.  A context counts the live sampled objects of one
 * backtrace: what was merged into it, plus the counters that threads have linked to it.
 * A method is one critical section; between them other threads may run.
 */
module ProfContext {
  import opened Basics
  import opened Traces

  type Tid = nat
  type CtxId = nat
  type Backtrace = nat
  type Obj = nat

  /** prof_cnt_t: current objects and bytes.  A thread's share may be negative. */
  datatype Cnt = Cnt(objs: int, bytes: int)

  const ZERO := Cnt(0, 0)

  function Plus(a: Cnt, b: Cnt): Cnt {
    Cnt(a.objs + b.objs, a.bytes + b.bytes)
  }

  datatype Context = Context(bt: Backtrace, nlimbo: nat, merged: Cnt)

  /** A thread's counter for a context. */
  datatype Key = Key(t: Tid, c: CtxId)

  /** A live sampled object. */
  datatype Sample = Sample(c: CtxId, size: nat)

  /** A thread between two critical sections: about to link, and about to destroy. */
  datatype Local = Local(limbo: Option<CtxId>, isNew: bool, destroying: Option<CtxId>)

  const IDLE := Local(None, false, None)

  datatype State = State(
    ctxs: map<CtxId, Context>,
    bt2ctx: map<Backtrace, CtxId>,
    cnts: map<Key, Cnt>,
    threads: map<Tid, Local>,
    live: map<Obj, Sample>)

  // --------------------------------------------------------------------------
  // Sums
  // --------------------------------------------------------------------------

  datatype Unit = Objs | Bytes

  function Val(u: Unit, x: Cnt): int {
    if u == Objs then x.objs else x.bytes
  }

  function CntWeight(u: Unit, c: CtxId, k: Key, x: Cnt): int {
    if k.c == c then Val(u, x) else 0
  }

  /** What the counters linked to a context add up to. */
  ghost function SumCnts(u: Unit, c: CtxId, cnts: map<Key, Cnt>): int {
    if cnts == map[] then 0
    else
      var k :| k in cnts;
      CntWeight(u, c, k, cnts[k]) + SumCnts(u, c, cnts - {k})
  }

  lemma {:induction false} SumCntsWithout(u: Unit, c: CtxId, cnts: map<Key, Cnt>, k: Key)
    requires k in cnts
    ensures SumCnts(u, c, cnts) == CntWeight(u, c, k, cnts[k]) + SumCnts(u, c, cnts - {k})
    decreases |cnts|
  {
    var q :| q in cnts && SumCnts(u, c, cnts) == CntWeight(u, c, q, cnts[q]) + SumCnts(u, c, cnts - {q});
    if q != k {
      SumCntsWithout(u, c, cnts - {q}, k);
      SumCntsWithout(u, c, cnts - {k}, q);
      assert cnts - {q} - {k} == cnts - {k} - {q};
    }
  }

  lemma SumCntsWith(u: Unit, c: CtxId, cnts: map<Key, Cnt>, k: Key, x: Cnt)
    ensures SumCnts(u, c, cnts[k := x]) == CntWeight(u, c, k, x) + SumCnts(u, c, cnts - {k})
  {
    SumCntsWithout(u, c, cnts[k := x], k);
    assert cnts[k := x] - {k} == cnts - {k};
  }

  /** Nothing linked: nothing counted. */
  lemma {:induction false} SumCntsNone(u: Unit, c: CtxId, cnts: map<Key, Cnt>)
    requires forall k :: k in cnts ==> k.c != c
    ensures SumCnts(u, c, cnts) == 0
    decreases |cnts|
  {
    if cnts != map[] {
      var k :| k in cnts;
      SumCntsWithout(u, c, cnts, k);
      SumCntsNone(u, c, cnts - {k});
    }
  }

  function LiveWeight(u: Unit, c: CtxId, x: Sample): nat {
    if x.c != c then 0 else if u == Objs then 1 else x.size
  }

  /** The live objects of a context, or their bytes. */
  ghost function SumLive(u: Unit, c: CtxId, live: map<Obj, Sample>): nat {
    if live == map[] then 0
    else
      var o :| o in live;
      LiveWeight(u, c, live[o]) + SumLive(u, c, live - {o})
  }

  lemma {:induction false} SumLiveWithout(u: Unit, c: CtxId, live: map<Obj, Sample>, o: Obj)
    requires o in live
    ensures SumLive(u, c, live) == LiveWeight(u, c, live[o]) + SumLive(u, c, live - {o})
    decreases |live|
  {
    var q :| q in live && SumLive(u, c, live) == LiveWeight(u, c, live[q]) + SumLive(u, c, live - {q});
    if q != o {
      SumLiveWithout(u, c, live - {q}, o);
      SumLiveWithout(u, c, live - {o}, q);
      assert live - {q} - {o} == live - {o} - {q};
    }
  }

  lemma {:induction false} SumLiveNone(u: Unit, c: CtxId, live: map<Obj, Sample>)
    requires forall o :: o in live ==> live[o].c != c
    ensures SumLive(u, c, live) == 0
    decreases |live|
  {
    if live != map[] {
      var o :| o in live;
      SumLiveWithout(u, c, live, o);
      SumLiveNone(u, c, live - {o});
    }
  }

  /** A count of zero means that there is none. */
  lemma ZeroObjects(c: CtxId, live: map<Obj, Sample>)
    requires SumLive(Objs, c, live) == 0
    ensures forall o :: o in live ==> live[o].c != c
  {
    forall o | o in live ensures live[o].c != c {
      SumLiveWithout(Objs, c, live, o);
    }
  }

  // --------------------------------------------------------------------------
  // The invariant
  // --------------------------------------------------------------------------

  /** Threads between lookup and link. */
  function Waiting(threads: map<Tid, Local>, c: CtxId): set<Tid> {
    set t | t in threads && threads[t].limbo == Some(c)
  }

  /** Threads about to enter prof_ctx_destroy. */
  function Destroyers(threads: map<Tid, Local>, c: CtxId): set<Tid> {
    set t | t in threads && threads[t].destroying == Some(c)
  }

  ghost predicate Named(s: State) {
    && (forall b :: b in s.bt2ctx ==> s.bt2ctx[b] in s.ctxs && s.ctxs[s.bt2ctx[b]].bt == b)
    && (forall c :: c in s.ctxs ==> s.ctxs[c].bt in s.bt2ctx && s.bt2ctx[s.ctxs[c].bt] == c)
  }

  /** Every context that anything refers to exists. */
  ghost predicate Alive(s: State) {
    && (forall k :: k in s.cnts ==> k.c in s.ctxs)
    && (forall o :: o in s.live ==> s.live[o].c in s.ctxs)
    && (forall t :: t in s.threads ==> (s.threads[t].limbo.Some? ==> s.threads[t].limbo.value in s.ctxs))
    && (forall t :: t in s.threads ==> (s.threads[t].destroying.Some? ==> s.threads[t].destroying.value in s.ctxs))
  }

  function One(b: bool): nat {
    if b then 1 else 0
  }

  /** By how much the count is higher than the threads account for. */
  ghost function Excess(s: State, c: CtxId): int
    requires c in s.ctxs
  {
    s.ctxs[c].nlimbo - |Waiting(s.threads, c)| - |Destroyers(s.threads, c)|
  }

  ghost predicate Protected(s: State, c: CtxId)
    requires c in s.ctxs
  {
    Excess(s, c) >= 0
  }

  ghost predicate Counted(s: State, c: CtxId)
    requires c in s.ctxs
  {
    && s.ctxs[c].merged.objs + SumCnts(Objs, c, s.cnts) == SumLive(Objs, c, s.live)
    && s.ctxs[c].merged.bytes + SumCnts(Bytes, c, s.cnts) == SumLive(Bytes, c, s.live)
  }

  /** A thread about to link a counter does not have one yet. */
  ghost predicate NotYetLinked(s: State) {
    forall t :: t in s.threads && s.threads[t].limbo.Some? ==> Key(t, s.threads[t].limbo.value) !in s.cnts
  }

  ghost predicate Shape(s: State) {
    Named(s) && Alive(s) && NotYetLinked(s)
  }

  ghost predicate Inv(s: State) {
    && Shape(s)
    && (forall c {:trigger Protected(s, c)} :: c in s.ctxs ==> Protected(s, c))
    && (forall c {:trigger Counted(s, c)} :: c in s.ctxs ==> Counted(s, c))
  }

  /** The count is higher than the threads account for. */
  ghost predicate Stuck(s: State, c: CtxId) {
    c in s.ctxs && Excess(s, c) > 0
  }

  /** From one state to the next only the context in `lost`, if any, gains on its threads. */
  ghost predicate Leaks(s: State, s': State, lost: Option<CtxId>) {
    forall c {:trigger Excess(s', c)} :: c in s'.ctxs ==>
      Excess(s', c) == (if c in s.ctxs then Excess(s, c) else 0) + One(lost == Some(c))
  }

  function At(s: State, t: Tid): Local {
    if t in s.threads then s.threads[t] else IDLE
  }

  // --------------------------------------------------------------------------
  // Threads move
  // --------------------------------------------------------------------------

  function Move(threads: map<Tid, Local>, t: Tid, l: Local): map<Tid, Local> {
    threads[t := l]
  }

  lemma WaitingMoves(s: State, t: Tid, l: Local, c: CtxId)
    ensures |Waiting(Move(s.threads, t, l), c)| == |Waiting(s.threads, c)| - One(At(s, t).limbo == Some(c)) + One(l.limbo == Some(c))
  {
    var w := Waiting(s.threads, c);
    if l.limbo == Some(c) {
      assert Waiting(Move(s.threads, t, l), c) == w + {t};
      assert t in w <==> At(s, t).limbo == Some(c);
    } else {
      assert Waiting(Move(s.threads, t, l), c) == w - {t};
      assert t in w <==> At(s, t).limbo == Some(c);
    }
  }

  lemma DestroyersMove(s: State, t: Tid, l: Local, c: CtxId)
    ensures |Destroyers(Move(s.threads, t, l), c)| == |Destroyers(s.threads, c)| - One(At(s, t).destroying == Some(c)) + One(l.destroying == Some(c))
  {
    var w := Destroyers(s.threads, c);
    if l.destroying == Some(c) {
      assert Destroyers(Move(s.threads, t, l), c) == w + {t};
      assert t in w <==> At(s, t).destroying == Some(c);
    } else {
      assert Destroyers(Move(s.threads, t, l), c) == w - {t};
      assert t in w <==> At(s, t).destroying == Some(c);
    }
  }

  /** A thread's move is covered if the count is adjusted by as much; what is missing leaks. */
  lemma StillProtected(s: State, s': State, t: Tid, l: Local, c: CtxId)
    requires c in s.ctxs && c in s'.ctxs && Protected(s, c) && s'.threads == Move(s.threads, t, l)
    requires s'.ctxs[c].nlimbo >= s.ctxs[c].nlimbo
      - One(At(s, t).limbo == Some(c)) + One(l.limbo == Some(c))
      - One(At(s, t).destroying == Some(c)) + One(l.destroying == Some(c))
    ensures Protected(s', c) && Excess(s', c) == Excess(s, c) + s'.ctxs[c].nlimbo - s.ctxs[c].nlimbo
      + One(At(s, t).limbo == Some(c)) - One(l.limbo == Some(c))
      + One(At(s, t).destroying == Some(c)) - One(l.destroying == Some(c))
  {
    WaitingMoves(s, t, l, c);
    DestroyersMove(s, t, l, c);
  }

  lemma LeaksOn(s: State, s': State, s'': State)
    requires Leaks(s, s', None) && Leaks(s', s'', None) && s''.ctxs.Keys == s'.ctxs.Keys
    ensures Leaks(s, s'', None)
  {
    forall c | c in s''.ctxs ensures Excess(s'', c) == if c in s.ctxs then Excess(s, c) else 0 {
      assert Excess(s', c) == if c in s.ctxs then Excess(s, c) else 0;
    }
  }

  /** A change that leaves a context's counters and objects alone leaves its count. */
  lemma StillCounted(s: State, s': State, c: CtxId)
    requires c in s.ctxs && c in s'.ctxs && Counted(s, c) && s'.ctxs[c].merged == s.ctxs[c].merged
    requires s'.cnts == s.cnts && s'.live == s.live
    ensures Counted(s', c)
  {
  }

  // --------------------------------------------------------------------------
  // The steps
  // --------------------------------------------------------------------------

  /** prof_lookup finds the context: one more thread is in limbo. */
  function FoundState(s: State, t: Tid, c: CtxId): State
    requires c in s.ctxs
  {
    s.(ctxs := s.ctxs[c := s.ctxs[c].(nlimbo := s.ctxs[c].nlimbo + 1)], threads := Move(s.threads, t, Local(Some(c), false, None)))
  }

  lemma FoundAt(s: State, t: Tid, c: CtxId, k: CtxId)
    requires Inv(s) && c in s.ctxs && At(s, t) == IDLE && Key(t, c) !in s.cnts
    requires k in FoundState(s, t, c).ctxs
    ensures var s' := FoundState(s, t, c); Protected(s', k) && Counted(s', k) && Excess(s', k) == Excess(s, k)
  {
    var s' := FoundState(s, t, c);
    assert Protected(s, k) && Counted(s, k);
    StillProtected(s, s', t, Local(Some(c), false, None), k);
    StillCounted(s, s', k);
  }

  lemma FoundShape(s: State, t: Tid, c: CtxId)
    requires Shape(s) && c in s.ctxs && At(s, t) == IDLE && Key(t, c) !in s.cnts
    ensures Shape(FoundState(s, t, c))
  {
  }

  lemma FoundKeeps(s: State, t: Tid, c: CtxId)
    requires Inv(s) && c in s.ctxs && At(s, t) == IDLE && Key(t, c) !in s.cnts
    ensures Inv(FoundState(s, t, c)) && Leaks(s, FoundState(s, t, c), None)
  {
    var s' := FoundState(s, t, c);
    FoundShape(s, t, c);
    forall k | k in s'.ctxs ensures Protected(s', k) && Counted(s', k) && Excess(s', k) == Excess(s, k) {
      FoundAt(s, t, c, k);
    }
  }

  /** prof_lookup makes a context, with one thread in limbo. */
  function NewState(s: State, t: Tid, bt: Backtrace, c: CtxId): State {
    s.(ctxs := s.ctxs[c := Context(bt, 1, ZERO)], bt2ctx := s.bt2ctx[bt := c], threads := Move(s.threads, t, Local(Some(c), true, None)))
  }

  lemma NewAt(s: State, t: Tid, bt: Backtrace, c: CtxId, k: CtxId)
    requires Inv(s) && c !in s.ctxs && bt !in s.bt2ctx && At(s, t) == IDLE
    requires k in NewState(s, t, bt, c).ctxs
    ensures var s' := NewState(s, t, bt, c); Protected(s', k) && Counted(s', k) && Excess(s', k) == if k == c then 0 else Excess(s, k)
  {
    var s', l := NewState(s, t, bt, c), Local(Some(c), true, None);
    if k == c {
      WaitingMoves(s, t, l, c);
      DestroyersMove(s, t, l, c);
      assert Waiting(s.threads, c) == {} && Destroyers(s.threads, c) == {};
      SumCntsNone(Objs, c, s.cnts);
      SumCntsNone(Bytes, c, s.cnts);
      SumLiveNone(Objs, c, s.live);
      SumLiveNone(Bytes, c, s.live);
    } else {
      assert Protected(s, k) && Counted(s, k);
      StillProtected(s, s', t, l, k);
      StillCounted(s, s', k);
    }
  }

  lemma NewShape(s: State, t: Tid, bt: Backtrace, c: CtxId)
    requires Shape(s) && c !in s.ctxs && bt !in s.bt2ctx && At(s, t) == IDLE
    ensures Shape(NewState(s, t, bt, c))
  {
  }

  lemma NewKeeps(s: State, t: Tid, bt: Backtrace, c: CtxId)
    requires Inv(s) && c !in s.ctxs && bt !in s.bt2ctx && At(s, t) == IDLE
    ensures Inv(NewState(s, t, bt, c)) && Leaks(s, NewState(s, t, bt, c), None)
  {
    var s' := NewState(s, t, bt, c);
    NewShape(s, t, bt, c);
    forall k | k in s'.ctxs ensures Protected(s', k) && Counted(s', k) && Excess(s', k) == if k == c then 0 else Excess(s, k) {
      NewAt(s, t, bt, c, k);
    }
  }

  /** The end of prof_lookup: the counter is linked and the thread is out of limbo. */
  function LinkState(s: State, t: Tid, c: CtxId): State
    requires c in s.ctxs && s.ctxs[c].nlimbo > 0
  {
    s.(ctxs := s.ctxs[c := s.ctxs[c].(nlimbo := s.ctxs[c].nlimbo - 1)], cnts := s.cnts[Key(t, c) := ZERO], threads := Move(s.threads, t, IDLE))
  }

  lemma InLimbo(s: State, t: Tid, c: CtxId)
    requires Inv(s) && (At(s, t).limbo == Some(c) || At(s, t).destroying == Some(c))
    ensures c in s.ctxs && s.ctxs[c].nlimbo > 0
  {
    assert Protected(s, c);
    assert t in Waiting(s.threads, c) || t in Destroyers(s.threads, c);
  }

  /** A new counter counts nothing. */
  lemma LinkCounts(cnts: map<Key, Cnt>, k: Key, c: CtxId)
    requires k !in cnts
    ensures SumCnts(Objs, c, cnts[k := ZERO]) == SumCnts(Objs, c, cnts)
    ensures SumCnts(Bytes, c, cnts[k := ZERO]) == SumCnts(Bytes, c, cnts)
  {
    assert cnts - {k} == cnts;
    SumCntsWith(Objs, c, cnts, k, ZERO);
    SumCntsWith(Bytes, c, cnts, k, ZERO);
  }

  lemma LinkShape(s: State, t: Tid, c: CtxId)
    requires Shape(s) && At(s, t).limbo == Some(c) && At(s, t).destroying.None? && c in s.ctxs && s.ctxs[c].nlimbo > 0
    ensures Shape(LinkState(s, t, c))
  {
  }

  lemma LinkKeeps(s: State, t: Tid, c: CtxId)
    requires Inv(s) && At(s, t).limbo == Some(c) && At(s, t).destroying.None? && c in s.ctxs && s.ctxs[c].nlimbo > 0
    ensures Inv(LinkState(s, t, c)) && Leaks(s, LinkState(s, t, c), None)
  {
    var s' := LinkState(s, t, c);
    LinkShape(s, t, c);
    forall k | k in s'.ctxs ensures Protected(s', k) && Excess(s', k) == Excess(s, k) {
      assert Protected(s, k);
      StillProtected(s, s', t, IDLE, k);
    }
    forall k | k in s'.ctxs ensures Counted(s', k) {
      assert Counted(s, k);
      LinkCounts(s.cnts, Key(t, c), k);
    }
  }

  /** prof_lookup fails after the context was found or made. */
  function FailState(s: State, t: Tid, c: CtxId): State {
    s.(threads := Move(s.threads, t, if At(s, t).isNew then Local(None, false, Some(c)) else IDLE))
  }

  lemma FailAt(s: State, t: Tid, c: CtxId, k: CtxId)
    requires Inv(s) && At(s, t).limbo == Some(c) && At(s, t).destroying.None?
    requires k in FailState(s, t, c).ctxs
    ensures var s' := FailState(s, t, c); Protected(s', k) && Counted(s', k) && Excess(s', k) == Excess(s, k) + One(!At(s, t).isNew && k == c)
  {
    var s' := FailState(s, t, c);
    assert Protected(s, k) && Counted(s, k);
    StillProtected(s, s', t, s'.threads[t], k);
    StillCounted(s, s', k);
  }

  lemma FailShape(s: State, t: Tid, c: CtxId)
    requires Shape(s) && At(s, t).limbo == Some(c) && At(s, t).destroying.None?
    ensures Shape(FailState(s, t, c))
  {
  }

  lemma FailKeeps(s: State, t: Tid, c: CtxId)
    requires Inv(s) && At(s, t).limbo == Some(c) && At(s, t).destroying.None?
    ensures Inv(FailState(s, t, c)) && Leaks(s, FailState(s, t, c), if At(s, t).isNew then None else Some(c))
  {
    var s' := FailState(s, t, c);
    FailShape(s, t, c);
    forall k | k in s'.ctxs ensures Protected(s', k) && Counted(s', k) && Excess(s', k) == Excess(s, k) + One(!At(s, t).isNew && k == c) {
      FailAt(s, t, c, k);
    }
  }

  /** The counter of a thread is added to what was merged, and unlinked. */
  function MergedState(s: State, t: Tid, c: CtxId): State
    requires c in s.ctxs && Key(t, c) in s.cnts
  {
    s.(ctxs := s.ctxs[c := s.ctxs[c].(merged := Plus(s.ctxs[c].merged, s.cnts[Key(t, c)]))], cnts := s.cnts - {Key(t, c)})
  }

  lemma MergedAt(s: State, t: Tid, c: CtxId, k: CtxId)
    requires Inv(s) && c in s.ctxs && Key(t, c) in s.cnts
    requires k in MergedState(s, t, c).ctxs
    ensures var s' := MergedState(s, t, c); Protected(s', k) && Counted(s', k) && Excess(s', k) == Excess(s, k)
  {
    var s' := MergedState(s, t, c);
    assert Protected(s, k) && Counted(s, k);
    SumCntsWithout(Objs, k, s.cnts, Key(t, c));
    SumCntsWithout(Bytes, k, s.cnts, Key(t, c));
  }

  lemma MergedShape(s: State, t: Tid, c: CtxId)
    requires Shape(s) && c in s.ctxs && Key(t, c) in s.cnts
    ensures Shape(MergedState(s, t, c))
  {
  }

  lemma MergedKeeps(s: State, t: Tid, c: CtxId)
    requires Inv(s) && c in s.ctxs && Key(t, c) in s.cnts
    ensures Inv(MergedState(s, t, c)) && Leaks(s, MergedState(s, t, c), None)
  {
    var s' := MergedState(s, t, c);
    MergedShape(s, t, c);
    forall k | k in s'.ctxs ensures Protected(s', k) && Counted(s', k) && Excess(s', k) == Excess(s, k) {
      MergedAt(s, t, c, k);
    }
  }

  /** The merging thread undertakes to destroy the context. */
  function ClaimState(s: State, t: Tid, c: CtxId): State
    requires c in s.ctxs
  {
    s.(ctxs := s.ctxs[c := s.ctxs[c].(nlimbo := s.ctxs[c].nlimbo + 1)], threads := Move(s.threads, t, At(s, t).(destroying := Some(c))))
  }

  lemma ClaimAt(s: State, t: Tid, c: CtxId, k: CtxId)
    requires Inv(s) && c in s.ctxs && At(s, t).destroying.None?
    requires k in ClaimState(s, t, c).ctxs
    ensures var s' := ClaimState(s, t, c); Protected(s', k) && Counted(s', k) && Excess(s', k) == Excess(s, k)
  {
    var s' := ClaimState(s, t, c);
    assert Protected(s, k);
    StillProtected(s, s', t, At(s, t).(destroying := Some(c)), k);
    assert Counted(s, k);
    StillCounted(s, s', k);
  }

  lemma ClaimShape(s: State, t: Tid, c: CtxId)
    requires Shape(s) && c in s.ctxs && At(s, t).destroying.None?
    ensures Shape(ClaimState(s, t, c))
  {
  }

  lemma ClaimKeeps(s: State, t: Tid, c: CtxId)
    requires Inv(s) && c in s.ctxs && At(s, t).destroying.None?
    ensures Inv(ClaimState(s, t, c)) && Leaks(s, ClaimState(s, t, c), None)
  {
    var s' := ClaimState(s, t, c);
    ClaimShape(s, t, c);
    forall k | k in s'.ctxs ensures Protected(s', k) && Counted(s', k) && Excess(s', k) == Excess(s, k) {
      ClaimAt(s, t, c, k);
    }
  }

  /** Nothing refers to the context except the threads `d`, which are about to destroy it. */
  ghost predicate OnlyDestroyers(s: State, c: CtxId, d: set<Tid>) {
    && (forall k :: k in s.cnts ==> k.c != c)
    && (forall o :: o in s.live ==> s.live[o].c != c)
    && Waiting(s.threads, c) == {} && Destroyers(s.threads, c) == d
  }

  ghost predicate OnlyDestroyer(s: State, c: CtxId, t: Tid) {
    OnlyDestroyers(s, c, {t})
  }

  /** What the code checks before it gives a context up, with `n` claims on it. */
  predicate Idle(s: State, c: CtxId, n: nat)
    requires c in s.ctxs
  {
    (forall k :: k in s.cnts ==> k.c != c) && s.ctxs[c].merged.objs == 0 && s.ctxs[c].nlimbo == n
  }

  /** The check succeeds exactly when nothing else refers to the context and nothing has leaked. */
  lemma CheckExact(s: State, c: CtxId, d: set<Tid>)
    requires Inv(s) && c in s.ctxs && d <= Destroyers(s.threads, c)
    ensures Idle(s, c, |d|) <==> OnlyDestroyers(s, c, d) && !Stuck(s, c)
  {
    assert Protected(s, c) && Counted(s, c);
    if forall k :: k in s.cnts ==> k.c != c {
      SumCntsNone(Objs, c, s.cnts);
    }
    if Idle(s, c, |d|) {
      ZeroObjects(c, s.live);
      SubsetOfSize(d, Destroyers(s.threads, c));
    }
    if OnlyDestroyers(s, c, d) {
      SumLiveNone(Objs, c, s.live);
    }
  }

  lemma SubsetOfSize(a: set<Tid>, b: set<Tid>)
    requires a <= b
    ensures |a| <= |b| && (|a| == |b| ==> a == b)
  {
    var rest := b - a;
    assert b == a + rest;
    assert |b| == |a| + |rest|;
  }

  /** What prof_ctx_destroy checks is enough, and the bytes are zero, too. */
  lemma CheckSuffices(s: State, t: Tid, c: CtxId)
    requires Inv(s) && c in s.ctxs && At(s, t).destroying == Some(c) && Idle(s, c, 1)
    ensures OnlyDestroyer(s, c, t) && s.ctxs[c].merged.bytes == 0
  {
    assert Counted(s, c);
    CheckExact(s, c, {t});
    SumCntsNone(Bytes, c, s.cnts);
    SumLiveNone(Bytes, c, s.live);
  }

  function GoneState(s: State, t: Tid, c: CtxId): State
    requires c in s.ctxs
  {
    s.(ctxs := s.ctxs - {c}, bt2ctx := s.bt2ctx - {s.ctxs[c].bt}, threads := Move(s.threads, t, At(s, t).(destroying := None)))
  }

  lemma GoneKeeps(s: State, t: Tid, c: CtxId)
    requires Inv(s) && c in s.ctxs && At(s, t).destroying == Some(c) && OnlyDestroyer(s, c, t) && s.ctxs[c].nlimbo == 1
    ensures Inv(GoneState(s, t, c)) && Leaks(s, GoneState(s, t, c), None)
  {
    var s' := GoneState(s, t, c);
    forall u | u in s'.threads ensures s'.threads[u].limbo != Some(c) && s'.threads[u].destroying != Some(c) {
      assert u in s.threads && s.threads[u].limbo == Some(c) ==> u in Waiting(s.threads, c);
      assert u in s.threads && s.threads[u].destroying == Some(c) ==> u in Destroyers(s.threads, c);
    }
    forall k | k in s'.ctxs ensures Protected(s', k) && Counted(s', k) && Excess(s', k) == Excess(s, k) {
      assert Protected(s, k) && Counted(s, k);
      StillProtected(s, s', t, At(s, t).(destroying := None), k);
      StillCounted(s, s', k);
    }
  }

  /** The context stays: the destroyer's claim is withdrawn. */
  function StayState(s: State, t: Tid, c: CtxId): State
    requires c in s.ctxs && s.ctxs[c].nlimbo > 0
  {
    s.(ctxs := s.ctxs[c := s.ctxs[c].(nlimbo := s.ctxs[c].nlimbo - 1)], threads := Move(s.threads, t, At(s, t).(destroying := None)))
  }

  lemma StayAt(s: State, t: Tid, c: CtxId, k: CtxId)
    requires Inv(s) && c in s.ctxs && s.ctxs[c].nlimbo > 0 && At(s, t).destroying == Some(c)
    requires k in StayState(s, t, c).ctxs
    ensures var s' := StayState(s, t, c); Protected(s', k) && Counted(s', k) && Excess(s', k) == Excess(s, k)
  {
    var s' := StayState(s, t, c);
    assert Protected(s, k) && Counted(s, k);
    StillProtected(s, s', t, At(s, t).(destroying := None), k);
    StillCounted(s, s', k);
  }

  lemma StayShape(s: State, t: Tid, c: CtxId)
    requires Shape(s) && c in s.ctxs && s.ctxs[c].nlimbo > 0 && At(s, t).destroying == Some(c)
    ensures Shape(StayState(s, t, c))
  {
  }

  lemma StayKeeps(s: State, t: Tid, c: CtxId)
    requires Inv(s) && c in s.ctxs && s.ctxs[c].nlimbo > 0 && At(s, t).destroying == Some(c)
    ensures Inv(StayState(s, t, c)) && Leaks(s, StayState(s, t, c), None)
  {
    var s' := StayState(s, t, c);
    StayShape(s, t, c);
    forall k | k in s'.ctxs ensures Protected(s', k) && Counted(s', k) && Excess(s', k) == Excess(s, k) {
      StayAt(s, t, c, k);
    }
  }

  // --------------------------------------------------------------------------
  // Objects come and go
  // --------------------------------------------------------------------------

  function SampledState(s: State, k: Key, o: Obj, size: nat): State
    requires k in s.cnts
  {
    s.(cnts := s.cnts[k := Plus(s.cnts[k], Cnt(1, size))], live := s.live[o := Sample(k.c, size)])
  }

  lemma SampledAt(s: State, k: Key, o: Obj, size: nat, c: CtxId)
    requires Inv(s) && k in s.cnts && o !in s.live
    requires c in SampledState(s, k, o, size).ctxs
    ensures var s' := SampledState(s, k, o, size); Protected(s', c) && Counted(s', c) && Excess(s', c) == Excess(s, c)
  {
    var s' := SampledState(s, k, o, size);
    assert Protected(s, c) && Counted(s, c);
    CountOne(Objs, c, s, s', k, o);
    CountOne(Bytes, c, s, s', k, o);
  }

  lemma SampledShape(s: State, k: Key, o: Obj, size: nat)
    requires Shape(s) && k in s.cnts && o !in s.live
    ensures Shape(SampledState(s, k, o, size))
  {
  }

  lemma SampledKeeps(s: State, k: Key, o: Obj, size: nat)
    requires Inv(s) && k in s.cnts && o !in s.live
    ensures Inv(SampledState(s, k, o, size)) && Leaks(s, SampledState(s, k, o, size), None)
  {
    var s' := SampledState(s, k, o, size);
    SampledShape(s, k, o, size);
    forall c | c in s'.ctxs ensures Protected(s', c) && Counted(s', c) && Excess(s', c) == Excess(s, c) {
      SampledAt(s, k, o, size, c);
    }
  }

  lemma CountOne(u: Unit, c: CtxId, s: State, s': State, k: Key, o: Obj)
    requires k in s.cnts && o !in s.live && o in s'.live && s'.live == s.live[o := s'.live[o]]
    requires k in s'.cnts && s'.cnts == s.cnts[k := s'.cnts[k]]
    ensures SumCnts(u, c, s'.cnts) == SumCnts(u, c, s.cnts) - CntWeight(u, c, k, s.cnts[k]) + CntWeight(u, c, k, s'.cnts[k])
    ensures SumLive(u, c, s'.live) == SumLive(u, c, s.live) + LiveWeight(u, c, s'.live[o])
  {
    SumCntsWith(u, c, s.cnts, k, s'.cnts[k]);
    SumCntsWithout(u, c, s.cnts, k);
    SumLiveWithout(u, c, s'.live, o);
    assert s'.live - {o} == s.live;
  }

  function FreedState(s: State, k: Key, o: Obj): State
    requires k in s.cnts && o in s.live
  {
    s.(cnts := s.cnts[k := Plus(s.cnts[k], Cnt(-1, -(s.live[o].size as int)))], live := s.live - {o})
  }

  lemma FreedKeeps(s: State, k: Key, o: Obj)
    requires Inv(s) && k in s.cnts && o in s.live && s.live[o].c == k.c
    ensures Inv(FreedState(s, k, o)) && Leaks(s, FreedState(s, k, o), None)
  {
    var s' := FreedState(s, k, o);
    forall c | c in s'.ctxs ensures Protected(s', c) && Counted(s', c) && Excess(s', c) == Excess(s, c) {
      assert Protected(s, c) && Counted(s, c);
      UncountOne(Objs, c, s, k, o);
      UncountOne(Bytes, c, s, k, o);
    }
  }

  lemma UncountOne(u: Unit, c: CtxId, s: State, k: Key, o: Obj)
    requires k in s.cnts && o in s.live
    ensures SumCnts(u, c, FreedState(s, k, o).cnts) == SumCnts(u, c, s.cnts) - CntWeight(u, c, k, s.cnts[k]) + CntWeight(u, c, k, FreedState(s, k, o).cnts[k])
    ensures SumLive(u, c, s.live - {o}) == SumLive(u, c, s.live) - LiveWeight(u, c, s.live[o])
  {
    SumCntsWith(u, c, s.cnts, k, FreedState(s, k, o).cnts[k]);
    SumCntsWithout(u, c, s.cnts, k);
    SumLiveWithout(u, c, s.live, o);
  }

  /** prof_free without a counter works on what was merged. */
  function DirectState(s: State, o: Obj): State
    requires o in s.live && s.live[o].c in s.ctxs
  {
    var c := s.live[o].c;
    s.(ctxs := s.ctxs[c := s.ctxs[c].(merged := Plus(s.ctxs[c].merged, Cnt(-1, -(s.live[o].size as int))))], live := s.live - {o})
  }

  lemma DirectShape(s: State, o: Obj)
    requires Shape(s) && o in s.live && s.live[o].c in s.ctxs
    ensures Shape(DirectState(s, o))
  {
  }

  lemma DirectKeeps(s: State, o: Obj)
    requires Inv(s) && o in s.live && s.live[o].c in s.ctxs
    ensures Inv(DirectState(s, o)) && Leaks(s, DirectState(s, o), None)
  {
    var s' := DirectState(s, o);
    DirectShape(s, o);
    forall c | c in s'.ctxs ensures Protected(s', c) && Counted(s', c) && Excess(s', c) == Excess(s, c) {
      assert Protected(s, c) && Counted(s, c);
      SumLiveWithout(Objs, c, s.live, o);
      SumLiveWithout(Bytes, c, s.live, o);
    }
  }

  datatype Event =
    | Lookup(t: Tid, bt: Backtrace, newCtx: Option<CtxId>)
    | Link(t: Tid)
    | Fail(t: Tid)
    | Merge(t: Tid, c: CtxId)
    | Destroy(t: Tid)
    | SampleOne(t: Tid, c: CtxId, o: Obj, size: nat)
    | FreeOne(t: Tid, o: Obj)

  /** The context that loses track of a thread in this step: a found one, when the lookup fails. */
  function LostBy(s: State, e: Event): Option<CtxId> {
    if e.Fail? && At(s, e.t).destroying.None? && !At(s, e.t).isNew then At(s, e.t).limbo else None
  }

  /** The thread is where it can take the step. */
  predicate Enabled(s: State, e: Event) {
    var l := At(s, e.t);
    match e
    case Lookup(t, bt, newCtx) => l == IDLE && (bt in s.bt2ctx ==> Key(t, s.bt2ctx[bt]) !in s.cnts) && (newCtx.Some? ==> newCtx.value !in s.ctxs)
    case Link(_) => l.limbo.Some? && l.destroying.None?
    case Fail(_) => l.limbo.Some? && l.destroying.None?
    case Merge(t, c) => Key(t, c) in s.cnts && l.destroying.None?
    case Destroy(_) => l.destroying.Some?
    case SampleOne(t, c, o, _) => Key(t, c) in s.cnts && o !in s.live
    case FreeOne(_, o) => o in s.live
  }

  ghost predicate LookupGoes(s: State, s': State, t: Tid, bt: Backtrace, newCtx: Option<CtxId>) {
    if bt in s.bt2ctx then s.bt2ctx[bt] in s.ctxs && s' == FoundState(s, t, s.bt2ctx[bt])
    else s' == if newCtx.Some? then NewState(s, t, bt, newCtx.value) else s
  }

  /** The thread undertakes to destroy the context if nothing refers to it any more and nothing has leaked. */
  ghost predicate MergeGoes(accum: bool, s: State, s': State, t: Tid, c: CtxId)
    requires Key(t, c) in s.cnts
  {
    && c in s.ctxs
    && var s1 := MergedState(s, t, c);
      s' == if !accum && OnlyDestroyers(s1, c, {}) && !Stuck(s, c) then ClaimState(s1, t, c) else s1
  }

  ghost predicate DestroyGoes(s: State, s': State, t: Tid, c: CtxId) {
    && c in s.ctxs && s.ctxs[c].nlimbo > 0
    && s' == if OnlyDestroyer(s, c, t) && !Stuck(s, c) then GoneState(s, t, c) else StayState(s, t, c)
  }

  ghost predicate FreeGoes(s: State, s': State, t: Tid, o: Obj)
    requires o in s.live
  {
    var k := Key(t, s.live[o].c);
    k.c in s.ctxs && s' == if k in s.cnts then FreedState(s, k, o) else DirectState(s, o)
  }

  /** The step from `s` to `s'`: the event's effect if it can happen, and else none. */
  ghost predicate Goes(accum: bool, s: State, s': State, e: Event) {
    if !Enabled(s, e) then s' == s else
    match e
    case Lookup(t, bt, newCtx) => LookupGoes(s, s', t, bt, newCtx)
    case Link(t) => var c := At(s, t).limbo.value; c in s.ctxs && s.ctxs[c].nlimbo > 0 && s' == LinkState(s, t, c)
    case Fail(t) => s' == FailState(s, t, At(s, t).limbo.value)
    case Merge(t, c) => MergeGoes(accum, s, s', t, c)
    case Destroy(t) => DestroyGoes(s, s', t, At(s, t).destroying.value)
    case SampleOne(t, c, o, size) => s' == SampledState(s, Key(t, c), o, size)
    case FreeOne(t, o) => FreeGoes(s, s', t, o)
  }

  /** A step, and what it loses. */
  ghost function Law(accum: bool): (State, State, Event) -> bool {
    (s, s', e) => Goes(accum, s, s', e) && Leaks(s, s', LostBy(s, e))
  }

  /** How many lookups of the context have failed since it was made, up to state `n` of a run. */
  ghost function Failures(trace: seq<State>, script: seq<Event>, c: CtxId, n: nat): int
    requires n < |trace| && n <= |script|
  {
    if c !in trace[n].ctxs then 0
    else if n == 0 then Excess(trace[0], c)
    else Failures(trace, script, c, n - 1) + One(LostBy(trace[n - 1], script[n - 1]) == Some(c))
  }

  lemma {:induction false} ExcessIsFailures(accum: bool, trace: seq<State>, script: seq<Event>, c: CtxId, n: nat)
    requires IsTrace(Law(accum), trace, script) && n < |trace| && c in trace[n].ctxs
    ensures Excess(trace[n], c) == Failures(trace, script, c, n)
  {
    if n > 0 {
      assert GoesAt(Law(accum), trace, script, n - 1);
      if c in trace[n - 1].ctxs {
        ExcessIsFailures(accum, trace, script, c, n - 1);
      }
    }
  }

  class Profile {
    const accum: bool
    var s: State

    ghost predicate Valid()
      reads this
    {
      Inv(s)
    }

    constructor (accum: bool)
      ensures Valid() && this.accum == accum && s == State(map[], map[], map[], map[], map[])
    {
      this.accum := accum;
      s := State(map[], map[], map[], map[], map[]);
    }

    /** The critical section of prof_lookup for a backtrace the thread has no counter for. */
    method LookupStep(t: Tid, bt: Backtrace, newCtx: Option<CtxId>)
      requires Valid() && At(s, t) == IDLE && (bt in s.bt2ctx ==> Key(t, s.bt2ctx[bt]) !in s.cnts) && (newCtx.Some? ==> newCtx.value !in s.ctxs)
      modifies this
      ensures Valid() && Leaks(old(s), s, None) && old(s).ctxs.Keys <= s.ctxs.Keys
      ensures LookupGoes(old(s), s, t, bt, newCtx)
    {
      if bt in s.bt2ctx {
        FoundKeeps(s, t, s.bt2ctx[bt]);
        s := FoundState(s, t, s.bt2ctx[bt]);
      } else if newCtx.Some? {
        NewKeeps(s, t, bt, newCtx.value);
        s := NewState(s, t, bt, newCtx.value);
      }
    }

    /** The last critical section of prof_lookup. */
    method LinkStep(t: Tid)
      requires Valid() && At(s, t).limbo.Some? && At(s, t).destroying.None?
      modifies this
      ensures Valid() && Leaks(old(s), s, None) && s.ctxs.Keys == old(s).ctxs.Keys
      ensures var c := At(old(s), t).limbo.value; c in old(s).ctxs && old(s).ctxs[c].nlimbo > 0 && s == LinkState(old(s), t, c)
    {
      var c := s.threads[t].limbo.value;
      InLimbo(s, t, c);
      LinkKeeps(s, t, c);
      s := LinkState(s, t, c);
    }

    /** prof_lookup gives up: only a context it made itself is offered for destruction. */
    method FailStep(t: Tid)
      requires Valid() && At(s, t).limbo.Some? && At(s, t).destroying.None?
      modifies this
      ensures Valid() && s == FailState(old(s), t, At(old(s), t).limbo.value)
      ensures Leaks(old(s), s, if At(old(s), t).isNew then None else At(old(s), t).limbo)
    {
      var c := s.threads[t].limbo.value;
      FailKeeps(s, t, c);
      s := FailState(s, t, c);
    }

    /**
     * prof_ctx_merge: the total of each context stays the same.  The thread undertakes to
     * destroy the context exactly when nothing refers to it any more and nothing has leaked.
     */
    method MergeStep(t: Tid, c: CtxId)
      requires Valid() && Key(t, c) in s.cnts && At(s, t).destroying.None?
      modifies this
      ensures Valid() && Leaks(old(s), s, None) && s.ctxs.Keys == old(s).ctxs.Keys && c in s.ctxs
      ensures MergeGoes(accum, old(s), s, t, c)
    {
      MergedKeeps(s, t, c);
      s := MergedState(s, t, c);
      CheckExact(s, c, {});
      assert Stuck(s, c) <==> Stuck(old(s), c);
      if !accum && Idle(s, c, 0) {
        ClaimKeeps(s, t, c);
        ghost var s1 := s;
        s := ClaimState(s, t, c);
        LeaksOn(old(s), s1, s);
      }
    }

    /**
     * prof_ctx_destroy: the context goes exactly when nothing else refers to it and no lookup
     * of it has failed.
     */
    method DestroyStep(t: Tid) returns (freed: bool)
      requires Valid() && At(s, t).destroying.Some?
      modifies this
      ensures Valid() && Leaks(old(s), s, None) && DestroyGoes(old(s), s, t, At(old(s), t).destroying.value)
      ensures var c := At(old(s), t).destroying.value; freed <==> OnlyDestroyer(old(s), c, t) && !Stuck(old(s), c)
      ensures s.ctxs.Keys == if freed then old(s).ctxs.Keys - {At(old(s), t).destroying.value} else old(s).ctxs.Keys
    {
      var c := s.threads[t].destroying.value;
      InLimbo(s, t, c);
      freed := Idle(s, c, 1);
      CheckExact(s, c, {t});
      if freed {
        CheckSuffices(s, t, c);
        assert s.ctxs[c].merged.bytes == 0;
        GoneKeeps(s, t, c);
        s := GoneState(s, t, c);
      } else {
        StayKeeps(s, t, c);
        s := StayState(s, t, c);
      }
    }

    /** prof_malloc on a sampled object. */
    method SampleStep(k: Key, o: Obj, size: nat)
      requires Valid() && k in s.cnts && o !in s.live
      modifies this
      ensures Valid() && Leaks(old(s), s, None) && s == SampledState(old(s), k, o, size)
    {
      SampledKeeps(s, k, o, size);
      s := SampledState(s, k, o, size);
    }

    /** prof_free: the object's context still exists, whichever thread frees it. */
    method FreeStep(t: Tid, o: Obj)
      requires Valid() && o in s.live
      modifies this
      ensures Valid() && Leaks(old(s), s, None) && old(s).live[o].c in old(s).ctxs
      ensures FreeGoes(old(s), s, t, o)
    {
      var k := Key(t, s.live[o].c);
      if k in s.cnts {
        FreedKeeps(s, k, o);
        s := FreedState(s, k, o);
      } else {
        DirectKeeps(s, o);
        s := DirectState(s, o);
      }
    }

    /** One step of a thread, if it is where it can take it. */
    method Step(e: Event)
      requires Valid()
      modifies this
      ensures Valid() && Goes(accum, old(s), s, e) && Leaks(old(s), s, LostBy(old(s), e))
      ensures forall c :: c in old(s).ctxs && c !in s.ctxs ==> e.Destroy? && OnlyDestroyer(old(s), c, e.t) && !Stuck(old(s), c)
    {
      if Enabled(s, e) {
        match e {
          case Lookup(t, bt, newCtx) => LookupStep(t, bt, newCtx);
          case Link(t) => LinkStep(t);
          case Fail(t) => FailStep(t);
          case Merge(t, c) => MergeStep(t, c);
          case Destroy(t) => var _ := DestroyStep(t);
          case SampleOne(t, c, o, size) => SampleStep(Key(t, c), o, size);
          case FreeOne(t, o) => FreeStep(t, o);
        }
      }
    }

    /**
     * Any schedule: whatever is referred to exists, and the counts are those of the live
     * objects.  The count of a context exceeds its threads by exactly the number of lookups
     * that have found it and failed; once that has happened it is never destroyed.
     */
    method Run(script: seq<Event>) returns (ghost trace: seq<State>)
      requires Valid()
      modifies this
      ensures Valid() && Leads(Law(accum), trace, script, |script|, old(s), s)
      ensures forall c :: c in s.ctxs ==> Excess(s, c) == Failures(trace, script, c, |script|)
      ensures forall c :: Stuck(old(s), c) ==> Stuck(s, c)
    {
      trace := [s];
      for i := 0 to |script|
        invariant Valid() && Leads(Law(accum), trace, script, i, old(s), s)
        invariant forall c :: Stuck(old(s), c) ==> Stuck(s, c)
      {
        Step(script[i]);
        TraceGrows(Law(accum), trace, s, script);
        trace := trace + [s];
      }
      forall c | c in s.ctxs ensures Excess(s, c) == Failures(trace, script, c, |script|) {
        ExcessIsFailures(accum, trace, script, c, |script|);
      }
    }
  }

  /**
   * A schedule that ends with a context nothing refers to and nobody will destroy: thread 1
   * makes context 7, thread 2 finds it and fails, thread 1 unlinks its counter.
   */
  method LeakedContext() returns (p: Profile)
    ensures p.Valid() && !p.accum && 7 in p.s.ctxs && OnlyDestroyers(p.s, 7, {}) && Stuck(p.s, 7)
  {
    p := new Profile(false);
    p.LookupStep(1, 5, Some(7));
    p.LinkStep(1);
    p.LookupStep(2, 5, None);
    p.FailStep(2);
    assert Stuck(p.s, 7);
    p.MergeStep(1, 7);
    assert Excess(p.s, 7) > 0;
  }
}
