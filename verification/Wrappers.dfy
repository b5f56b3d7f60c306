/** Result types shared by the whole model. */
module Wrappers {

  datatype Option<+T> = None | Some(value: T)

  datatype Result<+T, +E> = Ok(value: T) | Err(error: E)

  /** The outcome of polling a future, stream or sink once. */
  datatype Poll<+T> = Pending | Ready(value: T)

  /** The I/O errors the Noise transport produces itself, and any error the byte
      transport below it may raise at any point. */
  datatype IoError = UnexpectedEof | InvalidData | WriteZero | TransportError

  function Min(a: nat, b: nat): nat {
    if a < b then a else b
  }
}
