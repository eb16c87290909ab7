/** Failure values of the edit actions.
    Every action reads entities with the graph's `entity` lookup, which throws
    when the identifier is absent; the model returns that as `Err(NotFound(id))`
    instead of a precondition. */
module Wrappers {

  datatype Option<+T> = None | Some(value: T)

  datatype Error =
    | NotFound(id: nat)   // the graph has no entity with this identifier
    | TypeError           // a helper of the wrong entity kind was called (JavaScript TypeError)
    | RangeError          // a way helper was given an index outside its range
    | OutOfFuel           // the delete cascade went deeper than the fuel allows

  datatype Result<+T> = Ok(value: T) | Err(error: Error) {

    predicate IsFailure()
    {
      Err?
    }

    function PropagateFailure<U>(): Result<U>
      requires Err?
    {
      Err(error)
    }

    function Extract(): T
      requires Ok?
    {
      value
    }
  }
}
