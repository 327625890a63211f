/** A call either completes with a value or ends the process through `abort`. */
module Outcomes {
  datatype Outcome<+T> = Done(value: T) | Aborted {
    predicate IsFailure() { Aborted? }

    function PropagateFailure<U>(): Outcome<U>
      requires Aborted?
    {
      Aborted
    }

    function Extract(): T
      requires Done?
    {
      value
    }
  }
}
