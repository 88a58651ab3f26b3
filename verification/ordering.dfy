/** Strict total orders given as function values, and the order on ids. */
module Ordering {

  /** `less` is irreflexive, transitive and relates any two distinct values. */
  ghost predicate StrictTotalOrder<T(!new)>(less: (T, T) -> bool) {
    && (forall x :: !less(x, x))
    && (forall x, y, z :: less(x, y) && less(y, z) ==> less(x, z))
    && (forall x, y :: x != y ==> less(x, y) || less(y, x))
  }

  /** Numeric order on question ids (cw-storage-plus keeps `u64` keys in
      big-endian form, so a range scans them in ascending numeric order). */
  predicate NatLess(a: nat, b: nat) {
    a < b
  }

  lemma NatLessIsStrictTotalOrder()
    ensures StrictTotalOrder(NatLess)
  {
  }
}
