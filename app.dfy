/** `gaspass.App`: the session that holds the passphrase and shared key, and encrypts and decrypts records. */
module GasPass {
  import opened Bytes
  import opened Primitives
  import opened Envelope

  /**
   * A `goog.crypt.Hmac` object, seen from outside: it is keyed once, fed bytes by
   * `Update`, and its digest is the HMAC of everything fed so far.
   */
  class Hmac {
    const mac: (seq<Byte>, seq<Byte>) -> seq<Byte>
    const key: seq<Byte>
    var message: seq<Byte>

    constructor (mac: (seq<Byte>, seq<Byte>) -> seq<Byte>, key: seq<Byte>)
      ensures this.mac == mac && this.key == key
      ensures message == []
    {
      this.mac := mac;
      this.key := key;
      message := [];
    }

    method Update(bytes: seq<Byte>)
      modifies this
      ensures message == old(message) + bytes
    {
      message := message + bytes;
    }

    method Digest() returns (digest: seq<Byte>)
      ensures digest == mac(key, message)
    {
      digest := mac(key, message);
    }
  }

  class App {
    /** The Closure primitives this session calls. */
    const crypto: Crypto
    /** `sharedKey_`: PBKDF2 of the passphrase over `sharedSalt`, empty until a passphrase is submitted. */
    var sharedKey: seq<Byte>
    /** `sharedSalt_`: the deployment's salt, hex-decoded once at start-up. */
    const sharedSalt: seq<Byte>
    /** `password_`: the master passphrase as bytes, empty until one is submitted. */
    var password: seq<Byte>

    /** A new session: the salt comes from the page's `sharedSalt` setting; no passphrase yet. */
    constructor (crypto: Crypto, sharedSaltHex: string)
      ensures this.crypto == crypto
      ensures sharedSalt == crypto.hexDecode(sharedSaltHex)
      ensures password == [] && sharedKey == []
    {
      this.crypto := crypto;
      sharedKey := [];
      sharedSalt := crypto.hexDecode(sharedSaltHex);
      password := [];
    }

    /** The state update of `onPass_`: store the passphrase and derive the shared key from it. */
    method OnPass(text: string)
      modifies this`password, this`sharedKey
      ensures password == crypto.toBytes(text)
      ensures sharedKey == SharedKey(crypto, password, sharedSalt)
    {
      password := crypto.toBytes(text);
      sharedKey := crypto.pbkdf2Sha1(password, sharedSalt, SharedKeyIterations, StretchBits);
    }

    /** `getEncryptionKey(salt)`: two HMAC updates and a digest, giving the record key of the current session. */
    method GetEncryptionKey(salt: seq<Byte>) returns (key: seq<Byte>)
      ensures key == DeriveKey(crypto, password, sharedKey, salt)
    {
      var hmac := new Hmac(crypto.hmacSha256, password);
      hmac.Update(crypto.pbkdf2Sha1(password, salt, RecordKeyIterations, StretchBits));
      hmac.Update(sharedKey);
      key := hmac.Digest();
      assert hmac.message == KeyMaterial(crypto, password, sharedKey, salt);
    }

    /** `encrypt(str)`, with the 16 random draws of the IV as a parameter. */
    method Encrypt(str: string, draws: seq<Int32>) returns (env: CipherEnvelope)
      requires |draws| == BlockSize
      ensures env == Seal(crypto, password, sharedKey, MakeIv(draws), str)
    {
      var iv := MakeIv(draws);
      var plainText := crypto.utf8Encode(str);
      plainText := plainText + [0];
      var key := GetEncryptionKey(iv);
      var cipherText := crypto.cbcEncrypt(key, plainText, iv);
      env := CipherEnvelope(crypto.hexEncode(cipherText), crypto.hexEncode(iv));
    }

    /** `decrypt(str, iv)`: the decrypted buffer is cut short at its first zero byte. */
    method Decrypt(str: string, ivHex: string) returns (s: string)
      ensures s == Open(crypto, password, sharedKey, str, ivHex)
    {
      var data := crypto.hexDecode(str);
      var iv := crypto.hexDecode(ivHex);
      var key := GetEncryptionKey(iv);
      var plainText := crypto.cbcDecrypt(key, data, iv);
      var length := IndexOf(plainText, 0);
      if length >= 0 {
        plainText := plainText[..length];
      }
      s := crypto.utf8Decode(plainText);
    }

    /**
     * A record added and later revealed in the same session: decrypting the envelope
     * `Encrypt` returned gives back the string, when its UTF-8 bytes hold no 0x00.
     */
    method EncryptThenDecrypt(str: string, draws: seq<Int32>) returns (revealed: string)
      requires crypto.Lawful()
      requires |draws| == BlockSize
      requires 0 !in crypto.utf8Encode(str)
      ensures revealed == str
    {
      var env := Encrypt(str, draws);
      revealed := Decrypt(env.data, env.iv);
      SealOpenRoundTrip(crypto, password, sharedKey, MakeIv(draws), str);
    }
  }
}
