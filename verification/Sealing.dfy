/**
 Facts carried through loops without being looked into.

 A fact `P` sealed as `forall k :: Unseal(k) ==> P`, triggered by `Unseal`, is handed on as it is and
 opened by asserting `Unseal(0)` in the one place that uses it.  Proving one sealed fact opens the
 others with the same seal; what stays the same throughout a loop has a seal of its own.
 */
module Sealing {

  ghost predicate Unseal(k: nat) {
    true
  }

  /** The seal of what a loop does not change. */
  ghost predicate UnsealSetting(k: nat) {
    true
  }
}
