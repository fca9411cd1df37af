/** The option type used for fallible results (`Option`, `Result<_, _>` without a payload). */
module Wrappers {
  datatype Option<+T> = None | Some(value: T)
}
