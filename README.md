# GAS Password Manager: the record encryption envelope

GAS Password Manager is a browser-side password vault. The user enters a master
passphrase once per session. Each stored credential's password is encrypted in
the browser before it is posted to the backing store, and decrypted on demand
when a search result is revealed. This project models the part of
`app/js/app.js` that does that work, and proves its properties in Dafny:

- `goog.crypt.xorByteArray`, which the application replaces with its own loop
  (module `XorBytes`, file `xor.dfy`);
- the session object `gaspass.App` with its fields `password_`, `sharedKey_` and
  `sharedSalt_`, the state update when a passphrase is submitted, the key
  derivation `getEncryptionKey`, and the record operations `encrypt` and
  `decrypt` (module `GasPass`, file `app.dfy`);
- the specification those methods are proved against: the IV, the 0x00
  terminator, truncation at the first zero, the key derivation, and the sealed
  and opened envelope (module `Envelope`, file `envelope.dfy`).

The Closure Library primitives the code calls (UTF-8 and hex conversion,
`stringToByteArray`, PBKDF2-SHA1, HMAC-SHA256, AES in CBC mode) are not part of
this model. They are the function-valued fields of the datatype
`Primitives.Crypto` (file `primitives.dfy`). The predicate `Crypto.Lawful()`
collects the only facts the proofs use about them:

- hex decoding inverts hex encoding;
- UTF-8 decoding inverts UTF-8 encoding;
- PBKDF2 with a 128-bit output length returns 16 bytes;
- HMAC-SHA256 returns 32 bytes;
- CBC decryption with the same AES key and IV gives back the plaintext as a
  prefix of its output.

The last law says nothing about what follows the prefix. It describes the
library with its `goog.asserts` checks compiled out, the same switch that
`XorBytes.XorByteArray` takes as its `assertsEnabled` parameter. With the
checks enabled, `goog.crypt.Cbc` rejects a plaintext whose length is not a
multiple of 16 bytes. With them compiled out, a short last block reaches AES
with its missing bytes read as 0. The terminator and truncation design only
needs the prefix property. Every lemma
that relies on these laws states `requires c.Lawful()`.

Bytes are `bv8`, and a JavaScript number as the bitwise operators see it after `ToInt32` is `bv32` (module `Bytes`, file `bytes.dfy`). Strings are Dafny strings.

The record key is 256 bits, not 128. Both PBKDF2 derivations produce 128 bits,
but `getEncryptionKey` (app/js/app.js:83-88) returns the whole HMAC-SHA256
digest without truncating it. `encrypt` and `decrypt` pass that digest
unchanged to `goog.crypt.Aes`, so the record cipher is AES-256
(`Envelope.DerivedKeyIsAes256`).

## Model

| member | source | states |
|---|---|---|
| `XorBytes.XorByteArray` | app/js/app.js:22-32 | With assertions enabled, unequal lengths fail the length assertion, and only then does the call fail. Otherwise the result has the first array's length, and element i is `bytes1[i] ^ bytes2[i]`, where a missing `bytes2[i]` reads as `undefined`, that is 0. For equal lengths the result is the element-wise XOR. |
| `XorBytes.XorSelfInverse` | app/js/app.js:27-31 | XORing the result with the second array again gives back the first array. This is the property CBC chaining relies on. |
| `Envelope.LowByte` | app/js/app.js:98 | `n & 0xff` on the 32-bit pattern is the byte equal to that pattern modulo 256. |
| `Envelope.MakeIv` | app/js/app.js:96-98 | The IV has exactly 16 elements. Each is a byte (0..255) equal to the matching 32-bit random draw modulo 256. |
| `Envelope.Terminated` | app/js/app.js:100-101 | The cipher input is the UTF-8 bytes followed by exactly one 0x00 byte. It is one byte longer than those bytes, keeps them unchanged as its prefix, and adds nothing else. |
| `Envelope.IndexOf` | app/js/app.js:125 | `indexOf(0)` returns -1 exactly when the buffer holds no zero. Otherwise it returns an in-range index holding zero with no zero before it, that is, the first zero. |
| `Envelope.TruncateAtZero` | app/js/app.js:125-128 | The truncated buffer is a prefix of the decrypted buffer and holds no zero. It is the whole buffer or is followed by a zero, so it ends at the first zero. A buffer without a zero is left unchanged. |
| `Envelope.TruncateTerminated` | app/js/app.js:100-128 | Truncating the terminated bytes plus any tail gives back exactly those bytes, when they hold no zero. |
| `Envelope.DerivedKeyIsAes256` | app/js/app.js:83-88 | Under the primitive laws, the derived key is the full 32-byte HMAC-SHA256 digest, which is a valid AES key of 256 bits. |
| `Envelope.KeyMaterialLayout` | app/js/app.js:85-86 | Under the primitive laws, the shared key has 16 bytes, and the HMAC is fed 32 bytes: the 16-byte per-record PBKDF2 stretch, then the shared key. |
| `Envelope.OpenDerivesSealKey` | app/js/app.js:103-122 | The stored hex IV decodes to the IV that salted the encryption key. With the same `password_` and `sharedKey_`, decryption derives the same key as encryption. |
| `Envelope.SealOpenRoundTrip` | app/js/app.js:95-131 | Under the primitive laws, for a 16-byte IV and a string whose UTF-8 bytes hold no 0x00, decrypting the `{data, iv}` pair that encryption produced returns the original string. |
| `GasPass.Hmac.constructor` | app/js/app.js:84 | A new HMAC object is keyed with the passphrase and has been fed nothing. |
| `GasPass.Hmac.Update` | app/js/app.js:85-86 | Each `update` appends its bytes to everything fed so far. |
| `GasPass.Hmac.Digest` | app/js/app.js:87 | The digest is HMAC-SHA256 of the key over all bytes fed, in order. |
| `GasPass.App.constructor` | app/js/app.js:38-59 | A new session has an empty `password_` and `sharedKey_`, and `sharedSalt_` is the hex-decoded configured salt. |
| `GasPass.App.OnPass` | app/js/app.js:142-143 | Submitting a passphrase sets `password_` to its bytes and `sharedKey_` to PBKDF2-SHA1 of `password_` over `sharedSalt_` (1000 iterations, 128 bits). `sharedSalt_` is a constant, and the frame allows writes to those two fields only. |
| `GasPass.App.GetEncryptionKey` | app/js/app.js:83-88 | The two `update` calls and the digest give HMAC-SHA256, keyed by `password_`, over the PBKDF2-SHA1 stretch (salt, 5000 iterations, 128 bits) followed by `sharedKey_`. The result depends only on `password_`, `sharedKey_` and the salt. |
| `GasPass.App.Encrypt` | app/js/app.js:95-111 | The result is the sealed envelope. `data` is the hex of the CBC-AES encryption of the UTF-8 bytes plus one 0x00, under the key salted with this call's IV, and `iv` is the hex of that IV. |
| `GasPass.App.Decrypt` | app/js/app.js:118-131 | The result is the opened envelope. Both fields are hex-decoded, the key is re-derived from the decoded IV, and the decrypted buffer is cut at its first zero before UTF-8 decoding. |
| `GasPass.App.EncryptThenDecrypt` | app/js/app.js:95-131 | In one session, decrypting the envelope that `Encrypt` returned gives back the string, when its UTF-8 bytes hold no 0x00. |

## Left out

- DOM and event wiring: the constructor's listeners, `onSearch_`, `onSearchSucceeded_`, `onPost_`, `onPostSucceeded_`, `onOps_`, and the form parsing in `onPass_`. This is UI glue with no logic to state.
- The remote calls `google.script.run ... search` and `postData`, and the `JSON.parse` of their results. These are I/O with the backing store.
- The randomness of the IV. `Math.random() * 512` is floating point and nondeterministic, so `Encrypt` takes the 16 draws as a parameter, each being the 32-bit pattern the `&` operator sees. The model keeps only the length and byte-range facts.
- The Closure primitives: AES (FIPS 197), CBC mode (section 6.2 of NIST SP 800-38A), HMAC (RFC 2104), SHA-256 (FIPS 180-4), PBKDF2 (section 5.2 of RFC 8018), UTF-8 (RFC 3629), hex conversion and `stringToByteArray`. They are uninterpreted, and the proofs rely only on the laws of `Crypto.Lawful()`. In particular, the model gives CBC no padding scheme. `goog.crypt.Cbc` applies none.
- The errors the primitives raise: hex strings of odd length or with non-hex characters, a plaintext or ciphertext that is not block-aligned, an IV that is not one block long, and an AES key of the wrong size. Each primitive is modelled as a total function.
- GasPass.Hmac: the object keeps all the bytes fed to it and applies the MAC at `Digest`. Closure hashes incrementally, but the digest it returns is the same.
- XorBytes.XorByteArray: array elements are bytes. A JavaScript array could hold other numbers, which `^` would first convert to 32-bit integers.
- Security properties: IV uniqueness, the unrelated output produced under a wrong key, and the lack of authentication. A verifier cannot state these over abstract primitives.
- Envelope.SealOpenRoundTrip: the CBC prefix law it assumes holds for the library with its `goog.asserts` checks compiled out. With the checks enabled, `Cbc.encrypt` fails unless the UTF-8 bytes plus the terminator fill whole 16-byte blocks, and the round trip is not promised for that build.
- GasPass.App.EncryptThenDecrypt: rests on the same CBC prefix law, so it too describes the build with assertions compiled out.
