/** Octets, the unit Ruby's Base64 and OpenSSL calls work on. */
module Bytes {
  type byte = x: int | 0 <= x < 256
}
