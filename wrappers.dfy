/** Option, the engine's error kinds, and a Result that carries one of them.
    Result is failure-compatible, so specification functions can use `:-`. */
module Wrappers {

  datatype Option<+T> = None | Some(value: T)

  /** The ways an operation of the engine can fail. Each stands for the Python
      exception the original raises at that point. */
  datatype Error =
    | MissingElement(name: string)   // `.text` of a `find` that returned None, or a failed `assert`
    | InvalidInteger(text: string)   // ValueError from `int(...)`
    | InvalidQuery                   // the bare `raise ValueError` of `find`
    | UnknownProduct(id: nat)        // a searched product identifier with no Product in the catalog
    | NotIterable                    // TypeError: iterating over a `find` that returned None
    | NotAProduct                    // a text node used where a Product is expected
    | InvalidFormat(spec: string)    // ValueError from `format` with a type the value does not support

  datatype Result<+T> = Ok(value: T) | Err(error: Error) {

    predicate IsFailure() {
      Err?
    }

    function PropagateFailure<U>(): Result<U>
      requires Err?
    {
      Err(error)
    }

    function Extract(): T
      requires Ok?
    {
      value
    }
  }
}
