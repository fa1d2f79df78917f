// HMAC-SHA1 as in section 2 of RFC 2104, built from an uninterpreted SHA-1.
// The same construction appears three times in the client: the HmacSha1
// class (raw digest), and the Qt 4 helpers in the PBKDF2 and frame-cipher
// code, which return the digest in Base64.
module Hmac {
  import opened Bytes

  type Digest = s: bytes | |s| == 20 witness seq(20, _ => 0)

  /** SHA-1 is not modelled: any function to 20-octet digests. */
  type Sha1 = bytes -> Digest

  const BlockSize: nat := 64
  const InnerPad: byte := 0x36
  const OuterPad: byte := 0x5c

  /** A key longer than the block is replaced by its digest. */
  function KeyBlock(sha1: Sha1, key: bytes): (k: bytes)
    ensures |k| <= BlockSize
    ensures |key| <= BlockSize ==> k == key
  {
    if |key| > BlockSize then sha1(key) else key
  }

  /** The 64-octet pad: c xor key[i] where the key reaches, c beyond it. */
  function Pad(key: bytes, c: byte): (r: bytes)
    requires |key| <= BlockSize
    ensures |r| == BlockSize
  {
    seq(BlockSize, i requires 0 <= i < BlockSize => if i < |key| then c ^ key[i] else c)
  }

  /** The key extended with zeros to the block size, as RFC 2104 states it. */
  function ZeroPadded(key: bytes): (r: bytes)
    requires |key| <= BlockSize
    ensures |r| == BlockSize
  {
    key + seq(BlockSize - |key|, _ => 0)
  }

  function XorBytes(a: bytes, b: bytes): (r: bytes)
    requires |a| == |b|
    ensures |r| == |a|
    ensures forall i :: 0 <= i < |a| ==> r[i] == a[i] ^ b[i]
  {
    seq(|a|, i requires 0 <= i < |a| => a[i] ^ b[i])
  }

  /** The pads are the zero-padded key xor the repeated pad octet. */
  lemma PadIsRfc2104(key: bytes, c: byte)
    requires |key| <= BlockSize
    ensures Pad(key, c) == XorBytes(ZeroPadded(key), seq(BlockSize, _ => c))
  {
    var z := ZeroPadded(key);
    forall i | 0 <= i < BlockSize
      ensures Pad(key, c)[i] == z[i] ^ c
    {
      if i >= |key| {
        assert z[i] == 0;
      }
    }
  }

  /** H(K xor opad, H(K xor ipad, text)). */
  function HmacSha1(sha1: Sha1, key: bytes, text: bytes): Digest
  {
    var k := KeyBlock(sha1, key);
    sha1(Pad(k, OuterPad) + sha1(Pad(k, InnerPad) + text))
  }

  /** HmacSha1 is the HMAC of section 2 of RFC 2104, K the key zero-padded to the block. */
  lemma HmacSha1IsRfc2104(sha1: Sha1, key: bytes, text: bytes)
    ensures var k := ZeroPadded(KeyBlock(sha1, key));
            HmacSha1(sha1, key, text)
              == sha1(XorBytes(k, seq(BlockSize, _ => OuterPad)) + sha1(XorBytes(k, seq(BlockSize, _ => InnerPad)) + text))
  {
    var k := KeyBlock(sha1, key);
    PadIsRfc2104(k, OuterPad);
    PadIsRfc2104(k, InnerPad);
  }

  /** Reducing the key first changes nothing: a digest is never re-hashed. */
  lemma HmacOfReducedKey(sha1: Sha1, key: bytes, text: bytes)
    ensures KeyBlock(sha1, KeyBlock(sha1, key)) == KeyBlock(sha1, key)
    ensures HmacSha1(sha1, KeyBlock(sha1, key), text) == HmacSha1(sha1, key, text)
  {}

  /** The Base64 form returned by the Qt 4 helpers is 28 octets long. */
  lemma Base64DigestLength(d: Digest)
    ensures |Base64(d)| == 28
  {
    Base64Length(d);
  }

  /** The Qt 4 helpers' result: the HMAC digest in Base64, 28 octets. */
  function QtHmac(sha1: Sha1, key: bytes, text: bytes): (r: bytes)
    ensures |r| == 28
  {
    Base64DigestLength(HmacSha1(sha1, key, text));
    Base64(HmacSha1(sha1, key, text))
  }

  /** The pad-building loop shared by every HMAC implementation. */
  method XorPads(key: bytes) returns (inner: bytes, outer: bytes)
    requires |key| <= BlockSize
    ensures inner == Pad(key, InnerPad) && outer == Pad(key, OuterPad)
  {
    var ip := new byte[BlockSize](_ => InnerPad);
    var op := new byte[BlockSize](_ => OuterPad);
    var i := 0;
    while i < |key|
      invariant 0 <= i <= |key|
      invariant forall j :: 0 <= j < BlockSize ==> ip[j] == (if j < i then InnerPad ^ key[j] else InnerPad)
      invariant forall j :: 0 <= j < BlockSize ==> op[j] == (if j < i then OuterPad ^ key[j] else OuterPad)
    {
      ip[i] := ip[i] ^ key[i];
      op[i] := op[i] ^ key[i];
      i := i + 1;
    }
    inner, outer := ip[..], op[..];
  }

  /**
   * The Qt 4 `hash` helper of the PBKDF2 code and KeyStream::hmacSha1:
   * the HMAC digest rendered in Base64.
   */
  method Hash(sha1: Sha1, baseString: bytes, key: bytes) returns (r: bytes)
    ensures r == QtHmac(sha1, key, baseString)
  {
    var k := key;
    if |k| > BlockSize {
      k := sha1(k);
    }
    var inner, outer := XorPads(k);
    var total := outer + sha1(inner + baseString);
    r := Base64(sha1(total));
  }

  /** The HmacSha1 class: the key is kept and reduced in place when too long. */
  class HmacSha1Key {
    const sha1: Sha1
    var key: bytes

    constructor (sha1: Sha1, key: bytes)
      ensures this.sha1 == sha1 && this.key == key
    {
      this.sha1 := sha1;
      this.key := key;
    }

    /** The raw digest; an over-long key is replaced by its digest for good. */
    method Compute(buffer: bytes) returns (r: Digest)
      modifies this`key
      ensures key == KeyBlock(sha1, old(key))
      ensures r == HmacSha1(sha1, old(key), buffer)
      ensures r == HmacSha1(sha1, key, buffer)
    {
      if |key| > BlockSize {
        key := sha1(key);
      }
      var inner, outer := XorPads(key);
      var total := outer + sha1(inner + buffer);
      r := sha1(total);
      HmacOfReducedKey(sha1, old(key), buffer);
    }
  }

  /** Calling the class twice with the same buffer returns the same digest. */
  method RepeatedCompute(sha1: Sha1, key: bytes, buffer: bytes) returns (first: Digest, second: Digest)
    ensures first == second == HmacSha1(sha1, key, buffer)
  {
    var h := new HmacSha1Key(sha1, key);
    first := h.Compute(buffer);
    second := h.Compute(buffer);
  }
}
