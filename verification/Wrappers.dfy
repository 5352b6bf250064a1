/** Failure-carrying values and the machine integers shared by every module. */
module Wrappers {
  datatype Option<+T> = None | Some(value: T)

  datatype Result<+T, +E> = Success(value: T) | Failure(error: E) {
    predicate IsFailure() {
      Failure?
    }

    function PropagateFailure<U>(): Result<U, E>
      requires Failure?
    {
      Failure(error)
    }

    function Extract(): T
      requires Success?
    {
      value
    }
  }

  const TWO_64 := 0x1_0000_0000_0000_0000

  type U64 = x: int | 0 <= x < TWO_64

  type Byte = x: int | 0 <= x < 256

  // ---- lists read in order -------------------------------------------------------------------------------

  function Then<T, E>(prefix: seq<T>, r: Result<seq<T>, E>): Result<seq<T>, E> {
    match r
    case Success(rest) => Success(prefix + rest)
    case Failure(e) => Failure(e)
  }

  lemma ThenMore<T, E>(prefix: seq<T>, more: seq<T>, r: Result<seq<T>, E>)
    ensures Then(prefix, Then(more, r)) == Then(prefix + more, r)
    ensures Then([], r) == r
  {
    if r.Success? {
      assert prefix + (more + r.value) == prefix + more + r.value;
      assert [] + r.value == r.value;
    }
  }
}
