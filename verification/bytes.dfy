/** Bytes, and the option type of the modules that work on them. */
module Bytes {

  type Byte = b: nat | b < 0x100

  datatype Option<T> = None | Some(value: T)

  function Zeros(n: nat): (z: seq<Byte>)
    ensures |z| == n
  {
    seq(n, _ => 0)
  }
}
