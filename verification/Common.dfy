/** Small vocabulary shared by every model in this project. */
module Common {

  /** A value that may be absent: a null, a None, or a thrown error. */
  datatype Option<+T> = None | Some(value: T)

  type byte = x: int | 0 <= x < 256

  type Bytes = seq<byte>
}
