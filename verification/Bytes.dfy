/** Bytes and digests shared by the models of the file readers and the wire codecs. */
module Bytes {

  /** One octet. */
  type byte = b: int | 0 <= b < 256

  /** SHA-256 without collisions: a digest is determined by, and determines, what was hashed. */
  datatype Digest<T> = Sha256(preimage: T)

  datatype Option<+T> = None | Some(value: T)

  const NEWLINE: byte := 0x0A

  function Min(a: int, b: int): int {
    if a <= b then a else b
  }
}
