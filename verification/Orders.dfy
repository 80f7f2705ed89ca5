/** Strict total orders and sorted sequences. */
module Orders {
  ghost predicate StrictTotal<T(!new)>(less: (T, T) -> bool) {
    && (forall x :: !less(x, x))
    && (forall x, y, z :: less(x, y) && less(y, z) ==> less(x, z))
    && (forall x, y :: x != y ==> less(x, y) || less(y, x))
  }

  ghost predicate Sorted<T(!new)>(less: (T, T) -> bool, q: seq<T>) {
    forall i, j :: 0 <= i < j < |q| ==> less(q[i], q[j])
  }
}
