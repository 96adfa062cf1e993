/** Option and Result, with the engine's error kinds. */
module Wrappers {

  datatype Option<+T> = None | Some(value: T)

  datatype Error = Corruption | InvalidArgument | SchemaMismatch | Parquet | Iceberg | Io

  datatype Result<+T> = Ok(value: T) | Err(error: Error) {
    predicate IsFailure() {
      Err?
    }

    function PropagateFailure<U>(): Result<U>
      requires Err?
    {
      Err(error)
    }

    function Extract(): T
      requires Ok?
    {
      value
    }
  }
}
