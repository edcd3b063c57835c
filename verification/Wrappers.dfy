/** Results of operations that can fail. */
module Wrappers {
  datatype Option<+T> = None | Some(value: T)

  datatype Result<+T, +E> = Ok(value: T) | Err(error: E)

  /** Of checks made in order, each with the error it gives, the `k`-th is the first that fails. */
  predicate FirstFails<E>(checks: seq<(bool, E)>, k: nat) {
    k < |checks| && !checks[k].0 && forall i :: 0 <= i < k ==> checks[i].0
  }
}
