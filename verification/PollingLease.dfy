/**
 The polling lease: any number of threads run its compare-and-swap loop at once. Each atomic
 access is one step, and a weak compare-and-swap may fail spuriously.
 */
module PollingLease {

  /** Where a thread is in `Acquire`: not in it, or about to compare-and-swap with what it last observed. */
  datatype Pc = Outside | Trying(generation: nat, observed: nat)

  /** The atomic, the threads, and how many acquires returned true and releases returned true so far. */
  datatype State = State(lease: nat, pcs: map<nat, Pc>, taken: nat, released: nat)

  datatype Step =
    | Load(thread: nat, generation: nat)
    | CompareAndSwap(thread: nat, spurious: bool)
    | Release(thread: nat, generation: nat)

  function PcOf(s: State, thread: nat): Pc { if thread in s.pcs then s.pcs[thread] else Outside }

  function Move(s: State, thread: nat, pc: Pc): State { s.(pcs := s.pcs[thread := pc]) }

  /** The effect of a step; a step its thread cannot take now has none. */
  function Next(s: State, step: Step): State {
    match step
    case Load(t, g) =>
      if PcOf(s, t).Outside? then Move(s, t, Trying(g, s.lease)) else s
    case CompareAndSwap(t, spurious) =>
      if PcOf(s, t).Outside? then s
      else
        var Trying(g, observed) := PcOf(s, t);
        if observed == g then Move(s, t, Outside)
        else if s.lease == observed && !spurious then
          Move(s.(lease := g, taken := s.taken + if observed == 0 then 1 else 0), t, Outside)
        else Move(s, t, Trying(g, s.lease))
    case Release(t, g) =>
      if PcOf(s, t).Outside? && s.lease == g then s.(lease := 0, released := s.released + 1) else s
  }

  const INITIAL := State(0, map[], 0, 0)

  function Run(steps: seq<Step>): State {
    if steps == [] then INITIAL else Next(Run(steps[..|steps| - 1]), steps[|steps| - 1])
  }

  predicate Inv(s: State) {
    && s.taken == s.released + (if s.lease != 0 then 1 else 0)
    && forall t | t in s.pcs && s.pcs[t].Trying? :: s.pcs[t].generation != 0
  }

  /** No call names generation zero, which stands for an empty lease. */
  predicate NonZero(steps: seq<Step>) { forall i | 0 <= i < |steps| :: steps[i].CompareAndSwap? || steps[i].generation != 0 }

  /**
   Over every interleaving of calls with non-zero generations, acquires from empty minus releases is one exactly while
   the lease is held.
   */
  lemma {:induction false} LeaseConserved(steps: seq<Step>)
    requires NonZero(steps)
    ensures Inv(Run(steps))
  {
    if steps != [] {
      LeaseConserved(steps[..|steps| - 1]);
    }
  }

  /** Why zero must not be named: releasing it from an empty lease, in any state, counts a release of nothing. */
  lemma ReleaseOfNothing(s: State, t: nat)
    requires Inv(s) && s.lease == 0 && PcOf(s, t).Outside?
    ensures !Inv(Next(s, Release(t, 0)))
  {
  }
}
