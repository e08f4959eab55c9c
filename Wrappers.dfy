/** Optional values and success/failure results, the shapes the TypeScript code
    expresses with `null`, `undefined` and thrown errors. */
module Wrappers {

  datatype Option<+T> = None | Some(value: T)

  datatype Result<+T, +E> = Success(value: T) | Failure(error: E)
}
