// Invariants over the states of a run.
module Runs {

  // What holds at first and is kept by every step holds all along.
  lemma {:induction false} HoldsAlong<S>(b: seq<S>, holds: S -> bool, i: nat)
    requires i < |b| && holds(b[0])
    requires forall j :: 0 <= j < |b| - 1 && holds(b[j]) ==> holds(b[j + 1])
    ensures holds(b[i])
  {
    if i > 0 {
      HoldsAlong(b, holds, i - 1);
    }
  }
}
