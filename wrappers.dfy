/** Optional values: the model's stand-in for Java references that may be null. */
module Wrappers {

  datatype Option<+T> = None | Some(value: T) {

    /** The value, or `default` when there is none. */
    function GetOr(default: T): T {
      match this
      case Some(v) => v
      case None => default
    }
  }
}

/** Octets, as Java's `byte[]` holds them (the sign is irrelevant here). */
module Bytes {
  newtype byte = x: int | 0 <= x < 256

  type Bytes = seq<byte>
}
