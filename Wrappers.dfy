/** Option and Result, the latter carrying the name of the lookup that came back empty. */
module Wrappers {

  datatype Option<+T> = None | Some(value: T)

  /** A computation that either produced a value or stopped at a lookup that
      gave nothing: the source dereferences null at that point. `missing`
      names the element or property that was looked up. */
  datatype Result<+T> = Success(value: T) | Failure(missing: string) {

    predicate IsFailure() {
      Failure?
    }

    function PropagateFailure<U>(): Result<U>
      requires Failure?
    {
      Failure(missing)
    }

    function Extract(): T
      requires Success?
    {
      value
    }
  }
}
