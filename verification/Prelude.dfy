/** Small things shared by the other modules. */
module Prelude {

  /** A value, or nothing: the operation panicked, failed or found nothing. */
  datatype Option<+T> = None | Some(value: T)

  type Byte = x: int | 0 <= x < 256

  function Min(a: nat, b: nat): nat {
    if a < b then a else b
  }

  function Max(a: nat, b: nat): nat {
    if a < b then b else a
  }

  /** 1 for true. */
  function One(b: bool): nat {
    if b then 1 else 0
  }

  /** No element comes twice. */
  predicate NoDup<T(==)>(q: seq<T>) {
    forall i, j | 0 <= i < j < |q| :: q[i] != q[j]
  }
}
