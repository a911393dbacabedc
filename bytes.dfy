/** Byte arrays as the application handles them: JavaScript arrays whose elements are 0..255. */
module Bytes {

  /** One element of a byte array. */
  type Byte = bv8

  /** The AES block size in bytes; every IV the application makes has this length. */
  const BlockSize: nat := 16

  /** The length in bytes of a SHA-256 digest, and so of every HMAC-SHA256 result. */
  const Sha256DigestLength: nat := 32

  /** Output length in bits of both PBKDF2 derivations the application makes. */
  const StretchBits: nat := 128

  /** A JavaScript number after `ToInt32`: the 32-bit two's complement pattern that bitwise operators see. */
  type Int32 = bv32

  /** The key sizes AES accepts: 128, 192 or 256 bits. */
  predicate IsAesKey(key: seq<Byte>) {
    |key| == 16 || |key| == 24 || |key| == 32
  }
}
