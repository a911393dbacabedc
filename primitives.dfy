/**
 * The Closure Library primitives the application calls. Their code is not part of
 * this model, so each one is a function value, and the only facts known about
 * them are the laws of `Lawful`, which a proof has to assume explicitly.
 */
module Primitives {
  import opened Bytes

  datatype Crypto = Crypto(
    /** `goog.crypt.stringToByteArray`: the passphrase as bytes. */
    toBytes: string -> seq<Byte>,
    /** `goog.crypt.stringToUtf8ByteArray` (RFC 3629). */
    utf8Encode: string -> seq<Byte>,
    /** `goog.crypt.utf8ByteArrayToString`. */
    utf8Decode: seq<Byte> -> string,
    /** `goog.crypt.byteArrayToHex`. */
    hexEncode: seq<Byte> -> string,
    /** `goog.crypt.hexToByteArray`. */
    hexDecode: string -> seq<Byte>,
    /** `goog.crypt.pbkdf2.deriveKeySha1(password, salt, iterations, keyLengthInBits)` (section 5.2 of RFC 8018). */
    pbkdf2Sha1: (seq<Byte>, seq<Byte>, nat, nat) -> seq<Byte>,
    /** The digest of a `goog.crypt.Hmac` over SHA-256 (RFC 2104, FIPS 180-4), given its key and all bytes fed to it. */
    hmacSha256: (seq<Byte>, seq<Byte>) -> seq<Byte>,
    /** `new goog.crypt.Cbc(new goog.crypt.Aes(key)).encrypt(plainText, iv)` (FIPS 197; section 6.2 of NIST SP 800-38A). */
    cbcEncrypt: (seq<Byte>, seq<Byte>, seq<Byte>) -> seq<Byte>,
    /** `new goog.crypt.Cbc(new goog.crypt.Aes(key)).decrypt(cipherText, iv)`. */
    cbcDecrypt: (seq<Byte>, seq<Byte>, seq<Byte>) -> seq<Byte>
  ) {

    /**
     * The laws the record round trip rests on: hex and UTF-8 decoding invert their
     * encodings; PBKDF2 with a 128-bit output returns 16 bytes; HMAC-SHA256 returns a
     * 32-byte digest; and CBC decryption under the same AES key and IV gives back the
     * plaintext as a prefix. The CBC law describes the library with its `goog.asserts`
     * checks compiled out: with them enabled, `Cbc.encrypt` rejects a plaintext whose
     * length is not a multiple of the block size. What follows the prefix is left open.
     */
    ghost predicate Lawful() {
      && (forall bytes :: hexDecode(hexEncode(bytes)) == bytes)
      && (forall s :: utf8Decode(utf8Encode(s)) == s)
      && (forall password, salt, iterations ::
            |pbkdf2Sha1(password, salt, iterations, StretchBits)| == StretchBits / 8)
      && (forall key, message :: |hmacSha256(key, message)| == Sha256DigestLength)
      && (forall key, plainText, iv ::
            IsAesKey(key) && |iv| == BlockSize ==> plainText <= cbcDecrypt(key, cbcEncrypt(key, plainText, iv), iv))
    }
  }
}
