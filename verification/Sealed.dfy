/** Statements that proofs look into only where they say so. A sealed statement has the form
    `forall k {:trigger Open(k)} :: k == 0 ==> ...`; a proof that needs what it says asserts `Open(0)`. */
module Sealed {
  datatype Status = Sound | Broken

  predicate Open(k: nat) {
    k >= 0
  }
}
