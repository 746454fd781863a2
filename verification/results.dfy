/** Error outcomes of the detection post-processing pipeline.
    The source signals each of these by a runtime exception; the model
    returns them as values instead. */
module Results {

  /** Why a stage of the pipeline could not produce a value. */
  datatype Failure =
    | MissingAnchorValue      // fewer than 18 comma-separated anchor values
    | AnchorIndexOutOfBounds  // decode looked up a scale or anchor the table lacks
    | ShapeMismatch           // a decoded tensor cannot be reshaped for its scale

  datatype Result<+T> = Ok(value: T) | Err(error: Failure) {
    predicate IsFailure() {
      Err?
    }

    function PropagateFailure<U>(): Result<U>
      requires Err?
    {
      Err(error)
    }

    function Extract(): T
      requires Ok?
    {
      value
    }
  }
}
