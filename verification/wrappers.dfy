/** A value that may be absent: the model's stand-in for a C# null reference
    or a computation that produced nothing. */
module Wrappers {

  datatype Option<+T> = None | Some(value: T)
}
