// The two result shapes that stand for the program's std::optional and its exceptions.
module Wrappers {
  datatype Option<+T> = None | Some(value: T)

  // A call that either returns or throws; the error is the exception's reason.
  datatype Result<+T> = Ok(value: T) | Throws(reason: string)
}
