/** From one step to whole runs: if a step keeps a property exactly when it is not a bad one, then a run
    has the property at every moment exactly when it contains no bad step. */
module Runs {
  lemma {:induction false} ThroughoutIff(good: nat -> bool, bad: nat -> bool, n: nat)
    requires good(0)
    requires forall i: nat | i < n :: good(i) ==> (good(i + 1) <==> !bad(i))
    ensures (forall i: nat | i <= n :: good(i)) <==> (forall i: nat | i < n :: !bad(i))
  {
    if n > 0 {
      ThroughoutIff(good, bad, n - 1);
      assert (forall i: nat | i <= n :: good(i)) <==> (forall i: nat | i <= n - 1 :: good(i)) && good(n);
      assert (forall i: nat | i < n :: !bad(i)) <==> (forall i: nat | i < n - 1 :: !bad(i)) && !bad(n - 1);
      assert good(n - 1) ==> (good(n - 1 + 1) <==> !bad(n - 1));
    }
  }
}
