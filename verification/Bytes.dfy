/** Bytes and C strings. */
module Bytes {

  type Byte = b: nat | b < 256

  /** The characters of a C string before its terminator, as unsigned char. */
  type CChar = b: int | 1 <= b <= 255 witness 1

  type CString = seq<CChar>

  /** The letters, digits and upper Latin-1 characters that make up words. */
  predicate IsStringByte(b: nat) {
    65 <= b <= 90 || 48 <= b <= 57 || 97 <= b <= 122 || 160 <= b <= 255
  }
}
