/**
 * The application's own replacement for `goog.crypt.xorByteArray`, which the
 * CBC mode calls to chain blocks.
 */
module XorBytes {
  import opened Bytes

  /** What a call returns: the XORed array, or the failure of its length assertion. */
  datatype XorResult = Xored(bytes: seq<Byte>) | LengthAssertionFailed

  /**
   * The element the loop reads from an array at index `i`. Past the end JavaScript
   * reads `undefined`, which `^` converts to 0.
   */
  function ElementOrZero(s: seq<Byte>, i: nat): (b: Byte)
    ensures i < |s| ==> b == s[i]
    ensures |s| <= i ==> b == 0
  {
    if i < |s| then s[i] else 0
  }

  /** Element-wise XOR of two arrays of the same length. */
  function Xor(a: seq<Byte>, b: seq<Byte>): (r: seq<Byte>)
    requires |a| == |b|
  {
    seq(|a|, i requires 0 <= i < |a| => a[i] ^ b[i])
  }

  /**
   * The loop of `xorByteArray`. The length check is a `goog.asserts` assertion:
   * it fails the call when assertions are enabled and is compiled out otherwise,
   * in which case the loop runs over the first array whatever the second holds.
   */
  method XorByteArray(bytes1: seq<Byte>, bytes2: seq<Byte>, assertsEnabled: bool) returns (r: XorResult)
    ensures r.LengthAssertionFailed? <==> assertsEnabled && |bytes1| != |bytes2|
    ensures r.Xored? ==> |r.bytes| == |bytes1|
    ensures r.Xored? ==> forall i :: 0 <= i < |bytes1| ==> r.bytes[i] == bytes1[i] ^ ElementOrZero(bytes2, i)
    ensures |bytes1| == |bytes2| ==> r == Xored(Xor(bytes1, bytes2))
  {
    if assertsEnabled && |bytes1| != |bytes2| {
      return LengthAssertionFailed;
    }
    var result: seq<Byte> := [];
    var i, l := 0, |bytes1|;
    while i < l
      invariant 0 <= i <= l == |bytes1|
      invariant |result| == i
      invariant forall j :: 0 <= j < i ==> result[j] == bytes1[j] ^ ElementOrZero(bytes2, j)
    {
      result := result + [bytes1[i] ^ ElementOrZero(bytes2, i)];
      i := i + 1;
    }
    r := Xored(result);
  }

  /** XORing twice with the same array gives back the original: what lets CBC decryption undo the chaining. */
  lemma XorSelfInverse(a: seq<Byte>, b: seq<Byte>)
    requires |a| == |b|
    ensures Xor(Xor(a, b), b) == a
  {
  }
}
