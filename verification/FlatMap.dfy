/** The flat map that a page map stands for, and its ordered lookup. */
module FlatMap {
  datatype Found = Missing | At(key: nat)

  /** The least key of `m` at or after `k`. */
  ghost predicate IsNext<V>(m: map<nat, V>, k: nat, r: Found) {
    match r
    case Missing => forall p | p in m :: p < k
    case At(p) => p in m && p >= k && forall q | q in m && q >= k :: p <= q
  }
}
