/** Choices made outside the agent: whether a call succeeds, and which free id is used. */
module Environment {

  /** A call succeeds or fails; a reliable environment does not fail. */
  method Attempt(reliable: bool) returns (ok: bool)
    ensures reliable ==> ok
  {
    ok := *;
    ok := ok || reliable;
  }

  method FreeId(used: set<nat>) returns (i: nat)
    ensures i !in used
  {
    i := *;
    var taken := used;
    while i in taken
      invariant forall j :: j in used && j !in taken ==> j < i
      decreases taken
    {
      taken, i := taken - {i}, i + 1;
    }
  }
}
