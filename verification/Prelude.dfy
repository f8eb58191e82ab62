/** Small shared vocabulary: optional values, bytes and a symbolic hash. */
module Prelude {

  datatype Option<+T> = None | Some(value: T)

  type byte = b: int | 0 <= b < 256
  type Bytes = seq<byte>

  const NEWLINE: byte := 10
  const BACKSLASH: byte := 92

  /** SHA-256 as a free constructor: two digests are equal exactly when the
      hashed byte strings are.  This is the collision-freedom assumption; the
      modules that compare fingerprints make it an explicit premise instead. */
  datatype Sha = Sha(input: Bytes)

  /** `unicode.IsSpace` on a code point. */
  predicate IsSpace(rune: int) {
    || 0x09 <= rune <= 0x0D || rune == 0x20 || rune == 0x85 || rune == 0xA0 || rune == 0x1680
    || 0x2000 <= rune <= 0x200A || rune == 0x2028 || rune == 0x2029 || rune == 0x202F || rune == 0x205F || rune == 0x3000
  }
}
