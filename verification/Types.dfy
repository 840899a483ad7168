/** Vocabulary shared by every module: bytes, keys, instants and optional values. */
module Types {
  type byte = x: int | 0 <= x < 256
  type Bytes = seq<byte>
  type Key = Bytes

  /** Instants of the cache clock. Zero is Go's zero `time.Time`: "no deadline". */
  type Time = nat

  datatype Option<+T> = None | Some(value: T)
}
