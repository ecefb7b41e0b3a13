/** Option and Result values. The model uses `Option` where the
    TypeScript sources use an optional property or `undefined`, and
    `Result` where an async function either returns or throws. */
module Wrappers {

  datatype Option<+T> = None | Some(value: T)

  datatype Result<+T, +E> = Success(value: T) | Failure(error: E)
}
