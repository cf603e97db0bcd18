/** The event masks of a discrete sensor, from its number of states. */
module StateMask {
  import opened Types
  import opened Bits

  /** The number a word stands for. */
  function Value(w: Word): nat {
    if w == [] then 0 else (if w[0] then 1 else 0) + 2 * Value(w[1..])
  }

  /** The lowest k bits are set and no others. */
  predicate LowOnes(w: Word, k: nat) {
    forall i | 0 <= i < |w| :: w[i] <==> i < k
  }

  lemma {:induction false} LowOnesValue(w: Word, k: nat)
    requires LowOnes(w, k) && k <= |w|
    ensures Value(w) == Pow2(k) - 1
  {
    if w != [] {
      LowOnesValue(w[1..], if k == 0 then 0 else k - 1);
    }
  }

  const NO_BITS: Word := [false, false, false, false, false, false, false, false]

  /** IPMI has 15 discrete states: whatever the number of states, the two mask bytes together
      are the ones for the states there are, 2^min(n, 15) - 1. */
  method StateMasks(states: nat) returns (mask0: Word, mask1: Word)
    ensures |mask0| == |mask1| == 8
    ensures LowOnes(mask0 + mask1, Min(states, 15))
    ensures Value(mask0 + mask1) == Pow2(Min(states, 15)) - 1
  {
    mask0, mask1 := NO_BITS, NO_BITS;
    var stateCount := states;
    while stateCount > 0
      invariant stateCount <= states
      invariant |mask0| == |mask1| == 8
      invariant forall i | 0 <= i < 8 :: mask0[i] <==> stateCount <= i < Min(states, 15)
      invariant forall i | 0 <= i < 8 :: mask1[i] <==> stateCount <= i + 8 < Min(states, 15)
    {
      if stateCount <= 15 {
        if stateCount > 8 {
          mask1 := mask1[stateCount - 8 - 1 := true];
        }
        if stateCount <= 8 {
          mask0 := mask0[stateCount - 1 := true];
        }
      }
      stateCount := stateCount - 1;
    }
    LowOnesValue(mask0 + mask1, Min(states, 15));
  }
}
