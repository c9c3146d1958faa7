/** Result types shared by every component. */
module Wrappers {

  datatype Option<+T> = None | Some(value: T)

  datatype Result<+T, +E> = Success(value: T) | Failure(error: E)

  /** What one call of a poll function gives back. `Panicked` stands for a failed
      `expect`, a `panic!` or an arithmetic overflow inside the call. */
  datatype Call<+T> = Pending | Ready(value: T) | Panicked
}
