/**
 * The record encryption envelope: how a secret string becomes the pair
 * (hex ciphertext, hex IV) that is stored, and how that pair becomes a string
 * again. These functions are the specification the methods of `GasPass.App`
 * are proved against.
 */
module Envelope {
  import opened Bytes
  import opened Primitives

  /** What encryption returns and decryption takes: `{data: hex(cipher), iv: hex(iv)}`. */
  datatype CipherEnvelope = CipherEnvelope(data: string, iv: string)

  /** PBKDF2 iterations of the session-wide shared key. */
  const SharedKeyIterations: nat := 1000

  /** PBKDF2 iterations of the per-record stretch, salted with the record's IV. */
  const RecordKeyIterations: nat := 5000

  /** The shared key set when a passphrase is submitted: PBKDF2-SHA1 over the deployment's salt. */
  function SharedKey(c: Crypto, password: seq<Byte>, sharedSalt: seq<Byte>): seq<Byte>
  {
    c.pbkdf2Sha1(password, sharedSalt, SharedKeyIterations, StretchBits)
  }

  /** The bytes fed to the HMAC: the per-record stretch, then the shared key. */
  function KeyMaterial(c: Crypto, password: seq<Byte>, sharedKey: seq<Byte>, salt: seq<Byte>): seq<Byte>
  {
    c.pbkdf2Sha1(password, salt, RecordKeyIterations, StretchBits) + sharedKey
  }

  /**
   * The record key: HMAC-SHA256 keyed by the passphrase over `KeyMaterial`. It depends
   * on nothing but the passphrase, the shared key and the salt.
   */
  function DeriveKey(c: Crypto, password: seq<Byte>, sharedKey: seq<Byte>, salt: seq<Byte>): seq<Byte>
  {
    c.hmacSha256(password, KeyMaterial(c, password, sharedKey, salt))
  }

  /** `n & 0xff`: the lowest 8 bits of the 32-bit pattern, which are its value modulo 256. */
  function LowByte(n: Int32): (b: Byte)
    ensures b == (n % 256) as Byte
  {
    (n & 0xff) as Byte
  }

  /**
   * The IV of one record from 16 random draws, each `Math.random() * 512` as
   * `ToInt32` leaves it for the `& 0xff` mask.
   */
  function MakeIv(draws: seq<Int32>): (iv: seq<Byte>)
    requires |draws| == BlockSize
    ensures |iv| == BlockSize
    ensures forall i :: 0 <= i < BlockSize ==> iv[i] == (draws[i] % 256) as Byte
  {
    seq(BlockSize, i requires 0 <= i < BlockSize => LowByte(draws[i]))
  }

  /** The plaintext handed to the cipher: the UTF-8 bytes and one 0x00 terminator. */
  function Terminated(bytes: seq<Byte>): (framed: seq<Byte>)
    ensures |framed| == |bytes| + 1
    ensures framed[..|bytes|] == bytes
    ensures framed[|bytes|] == 0
  {
    bytes + [0]
  }

  /** `Array.prototype.indexOf`: the index of the first element equal to `x`, or -1 if there is none. */
  function IndexOf(s: seq<Byte>, x: Byte): (k: int)
    ensures -1 <= k < |s|
    ensures k == -1 <==> x !in s
    ensures 0 <= k ==> s[k] == x && x !in s[..k]
  {
    if |s| == 0 then -1
    else if s[0] == x then 0
    else
      var k := IndexOf(s[1..], x);
      assert s == [s[0]] + s[1..];
      if k < 0 then -1
      else
        assert s[..k + 1] == [s[0]] + s[1..][..k];
        k + 1
  }

  /**
   * The decrypted buffer cut at its first 0x00 byte: a prefix of the buffer that holds
   * no zero and is either the whole buffer or followed in it by a zero.
   */
  function TruncateAtZero(plainText: seq<Byte>): (r: seq<Byte>)
    ensures r <= plainText
    ensures 0 !in r
    ensures r == plainText || plainText[|r|] == 0
    ensures 0 !in plainText ==> r == plainText
  {
    var length := IndexOf(plainText, 0);
    if length >= 0 then plainText[..length] else plainText
  }

  /** `encrypt` with a given IV: hex of the CBC-AES ciphertext of the terminated UTF-8 bytes, and hex of the IV. */
  function Seal(c: Crypto, password: seq<Byte>, sharedKey: seq<Byte>, iv: seq<Byte>, str: string): CipherEnvelope
  {
    var key := DeriveKey(c, password, sharedKey, iv);
    CipherEnvelope(c.hexEncode(c.cbcEncrypt(key, Terminated(c.utf8Encode(str)), iv)), c.hexEncode(iv))
  }

  /** `decrypt`: hex-decode, re-derive the key from the stored IV, decrypt, cut at the first zero, UTF-8-decode. */
  function Open(c: Crypto, password: seq<Byte>, sharedKey: seq<Byte>, data: string, ivHex: string): string
  {
    var iv := c.hexDecode(ivHex);
    var key := DeriveKey(c, password, sharedKey, iv);
    c.utf8Decode(TruncateAtZero(c.cbcDecrypt(key, c.hexDecode(data), iv)))
  }

  /**
   * Whatever the cipher leaves after the terminator, the truncation recovers exactly
   * the bytes before it, provided they hold no zero themselves.
   */
  lemma TruncateTerminated(bytes: seq<Byte>, tail: seq<Byte>)
    requires 0 !in bytes
    ensures TruncateAtZero(Terminated(bytes) + tail) == bytes
  {
  }

  /** The key is an AES-256 key: the HMAC-SHA256 digest is used whole, without truncation. */
  lemma DerivedKeyIsAes256(c: Crypto, password: seq<Byte>, sharedKey: seq<Byte>, salt: seq<Byte>)
    requires c.Lawful()
    ensures |DeriveKey(c, password, sharedKey, salt)| == Sha256DigestLength
    ensures IsAesKey(DeriveKey(c, password, sharedKey, salt))
  {
  }

  /** The HMAC is fed 16 bytes of per-record stretch followed by the 16-byte shared key. */
  lemma KeyMaterialLayout(c: Crypto, password: seq<Byte>, sharedSalt: seq<Byte>, salt: seq<Byte>)
    requires c.Lawful()
    ensures |SharedKey(c, password, sharedSalt)| == StretchBits / 8
    ensures |KeyMaterial(c, password, SharedKey(c, password, sharedSalt), salt)| == 2 * (StretchBits / 8)
    ensures KeyMaterial(c, password, SharedKey(c, password, sharedSalt), salt)[StretchBits / 8..]
            == SharedKey(c, password, sharedSalt)
  {
  }

  /**
   * Decryption re-derives the key encryption used: the stored IV decodes to the IV
   * that salted the key, so with the same passphrase and shared key both keys agree.
   */
  lemma OpenDerivesSealKey(c: Crypto, password: seq<Byte>, sharedKey: seq<Byte>, iv: seq<Byte>, str: string)
    requires c.Lawful()
    ensures c.hexDecode(Seal(c, password, sharedKey, iv, str).iv) == iv
    ensures DeriveKey(c, password, sharedKey, c.hexDecode(Seal(c, password, sharedKey, iv, str).iv))
            == DeriveKey(c, password, sharedKey, iv)
  {
  }

  /**
   * The record round trip: decrypting what encryption produced, under the same
   * passphrase and shared key, gives back the string, when its UTF-8 bytes hold no 0x00.
   */
  lemma SealOpenRoundTrip(c: Crypto, password: seq<Byte>, sharedKey: seq<Byte>, iv: seq<Byte>, str: string)
    requires c.Lawful()
    requires |iv| == BlockSize
    requires 0 !in c.utf8Encode(str)
    ensures Open(c, password, sharedKey, Seal(c, password, sharedKey, iv, str).data, Seal(c, password, sharedKey, iv, str).iv) == str
  {
    var env := Seal(c, password, sharedKey, iv, str);
    var key := DeriveKey(c, password, sharedKey, iv);
    var plainText := Terminated(c.utf8Encode(str));
    OpenDerivesSealKey(c, password, sharedKey, iv, str);
    DerivedKeyIsAes256(c, password, sharedKey, iv);
    var cipherText := c.cbcEncrypt(key, plainText, iv);
    assert c.hexDecode(env.data) == cipherText;
    var decrypted := c.cbcDecrypt(key, cipherText, iv);
    assert plainText <= decrypted;
    assert decrypted == plainText + decrypted[|plainText|..];
    TruncateTerminated(c.utf8Encode(str), decrypted[|plainText|..]);
  }
}
