/** Option and Result: JavaScript's `T | null | undefined` and the success-or-issues
    outcome of a schema parse. */
module Common {

  datatype Option<+T> = None | Some(value: T)

  datatype Result<+T, +E> = Ok(value: T) | Err(error: E)
}
