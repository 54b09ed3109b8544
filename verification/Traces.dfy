/** Schedules and the states they pass through; `goes(s, s', e)` says that event `e` leads from `s` to `s'`. */
module Traces {
  ghost predicate GoesAt<S, E>(goes: (S, S, E) -> bool, trace: seq<S>, script: seq<E>, i: nat)
    requires i + 1 < |trace| <= |script| + 1
  {
    goes(trace[i], trace[i + 1], script[i])
  }

  /** The states at the beginning of a schedule. */
  ghost predicate IsTrace<S, E>(goes: (S, S, E) -> bool, trace: seq<S>, script: seq<E>) {
    && 0 < |trace| <= |script| + 1
    && forall i {:trigger GoesAt(goes, trace, script, i)} :: 0 <= i < |trace| - 1 ==> GoesAt(goes, trace, script, i)
  }

  /** The states of the first `n` events of a schedule, from `first` to `last`. */
  ghost predicate Leads<S, E>(goes: (S, S, E) -> bool, trace: seq<S>, script: seq<E>, n: nat, first: S, last: S) {
    IsTrace(goes, trace, script) && |trace| == n + 1 && trace[0] == first && trace[n] == last
  }

  lemma TraceGrows<S, E>(goes: (S, S, E) -> bool, trace: seq<S>, s: S, script: seq<E>)
    requires IsTrace(goes, trace, script) && |trace| <= |script| && goes(trace[|trace| - 1], s, script[|trace| - 1])
    ensures IsTrace(goes, trace + [s], script)
  {
    forall i | 0 <= i < |trace| ensures GoesAt(goes, trace + [s], script, i) {
      assert i < |trace| - 1 ==> GoesAt(goes, trace, script, i);
    }
  }
}
