/** Failure-carrying results for the operations that raise in the Python program. */
module Results {

  /** The exceptions the modelled code can raise. */
  datatype Fault =
    | InvalidAction(action: int)   // `step` with an action outside 0..3
    | SampleTooLarge               // `random.sample` asked for more cells than are empty
    | IndexOutOfRange              // indexing an empty or too-short list or grid
    | DivisionByZero               // an average over zero repeats

  /** Either the value an operation returns or the exception it raises. */
  datatype Result<+T> = Ok(value: T) | Err(fault: Fault) {

    predicate IsFailure() {
      Err?
    }

    function PropagateFailure<U>(): Result<U>
      requires Err?
    {
      Err(fault)
    }

    function Extract(): T
      requires Ok?
    {
      value
    }
  }

  /** Python's `range(n)` length: a negative count behaves like zero. */
  function Clamp(n: int): nat {
    if n < 0 then 0 else n
  }
}
