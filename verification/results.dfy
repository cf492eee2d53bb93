/** The two outcome types of the model. A Kotlin `null` is `None`; an
    exception that ends a decode is a `Failure` carrying its cause. Dafny's
    `:-` operator needs the three members `IsFailure`, `PropagateFailure`
    and `Extract` on each, so that a failure short-circuits the rest of a
    decoding step the way a thrown exception does. */
module Results {

  datatype Option<+T> = None | Some(value: T) {
    predicate IsFailure() { None? }

    function PropagateFailure<U>(): Option<U>
      requires None?
    {
      None
    }

    function Extract(): T
      requires Some?
    {
      value
    }
  }

  datatype Result<+R, +E> = Success(value: R) | Failure(error: E) {
    predicate IsFailure() { Failure? }

    function PropagateFailure<U>(): Result<U, E>
      requires Failure?
    {
      Failure(error)
    }

    function Extract(): R
      requires Success?
    {
      value
    }
  }

  /** Kotlin's `x ?: fallback`. */
  function Elvis<T>(x: Option<T>, fallback: T): T {
    if x.Some? then x.value else fallback
  }
}
