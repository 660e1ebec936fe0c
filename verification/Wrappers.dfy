// The shapes in which the repository returns values: a `null` that may be absent becomes
// `Option`, an `[error]` / `[null, data]` pair becomes `Result`.
module Wrappers {
  datatype Option<+T> = None | Some(value: T) {
    function UnwrapOr(default: T): T {
      if Some? then value else default
    }
  }

  datatype Result<+T, +E> = Success(value: T) | Failure(error: E)
}
