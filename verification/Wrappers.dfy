// Shared result types and the byte type.
module Wrappers {

  datatype Option<+T> = None | Some(value: T) {
    function UnwrapOr(default: T): T {
      if Some? then value else default
    }
  }

  datatype Result<+T, +E> = Success(value: T) | Failure(error: E)

  // An octet. Subset of nat, so that positional arithmetic stays linear.
  type byte = b: nat | b < 256

  type Bytes = seq<byte>
}
