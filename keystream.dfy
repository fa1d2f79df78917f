// The frame cipher of the encrypted stream: every frame is RC4-ciphered
// and carries the first four octets of a keyed MAC over the ciphertext and
// the frame's sequence number. RC4 is kept abstract as a keystream: the
// octet sequence a key generates, of which the first 0x300 octets are
// dropped. The MAC is the Base64-rendered HMAC-SHA1 of the Qt 4 build,
// over an abstract SHA-1.
module KeyStreams {
  import opened Bytes
  import opened Wrappers
  import opened Hmac
  import opened Rfc2898

  /** For a key, the RC4 keystream octet at every position. */
  type Rc4 = bytes -> (nat -> byte)

  /** Keystream octets RC4 discards before the first ciphered octet. */
  const Drop: nat := 0x300

  /** data xor the keystream octets from position pos on. */
  function Crypt(stream: nat -> byte, pos: nat, data: bytes): (r: bytes)
    ensures |r| == |data|
  {
    seq(|data|, i requires 0 <= i < |data| => data[i] ^ stream(pos + i))
  }

  /** Ciphering twice from the same keystream position gives back the input. */
  lemma CryptInvolutive(stream: nat -> byte, pos: nat, data: bytes)
    ensures Crypt(stream, pos, Crypt(stream, pos, data)) == data
  {
    var c := Crypt(stream, pos, data);
    forall i | 0 <= i < |data| ensures Crypt(stream, pos, c)[i] == data[i] {
      assert c[i] == data[i] ^ stream(pos + i);
    }
  }

  /** Ciphering two pieces in a row equals ciphering them in one call. */
  lemma CryptConcat(stream: nat -> byte, pos: nat, a: bytes, b: bytes)
    ensures Crypt(stream, pos, a + b) == Crypt(stream, pos, a) + Crypt(stream, pos + |a|, b)
  {
    var lhs := Crypt(stream, pos, a + b);
    var rhs := Crypt(stream, pos, a) + Crypt(stream, pos + |a|, b);
    forall i | 0 <= i < |a| + |b| ensures lhs[i] == rhs[i] {
      if i >= |a| {
        assert (a + b)[i] == b[i - |a|];
      }
    }
  }

  /** KeyStream::processBuffer: the big-endian sequence number appended. */
  function ProcessBuffer(buffer: bytes, seqNo: nat): (r: bytes)
    ensures |r| == |buffer| + 4 && r[..|buffer|] == buffer
    ensures BeValue(r[|buffer|..]) == seqNo % 0x1_0000_0000
  {
    Be32Value(seqNo);
    assert (buffer + Be32(seqNo))[|buffer|..] == Be32(seqNo);
    buffer + Be32(seqNo)
  }

  /**
   * The four tag octets agree with the MAC from macOffset on; with both in
   * range, that is the four MAC octets being the tag.
   */
  predicate TagMatches(mac: bytes, macOffset: nat, tag: bytes)
    ensures macOffset + 4 <= |mac| && |tag| == 4 ==>
              (TagMatches(mac, macOffset, tag) <==> mac[macOffset..macOffset + 4] == tag)
  {
    OctetsAgree(mac, macOffset, tag);
    forall i :: 0 <= i < 4 ==> At(mac, macOffset + i) == At(tag, i)
  }

  /** Four octets agreeing one by one, in range, are the slice equal to the tag. */
  lemma OctetsAgree(mac: bytes, macOffset: nat, tag: bytes)
    ensures macOffset + 4 <= |mac| && |tag| == 4 ==>
              ((forall i :: 0 <= i < 4 ==> At(mac, macOffset + i) == At(tag, i)) <==> mac[macOffset..macOffset + 4] == tag)
  {
    if macOffset + 4 <= |mac| && |tag| == 4 {
      if forall i :: 0 <= i < 4 ==> At(mac, macOffset + i) == At(tag, i) {
        forall i | 0 <= i < 4 ensures mac[macOffset..macOffset + 4][i] == tag[i] {
          assert At(mac, macOffset + i) == At(tag, i);
        }
      } else {
        var i :| 0 <= i < 4 && At(mac, macOffset + i) != At(tag, i);
        assert mac[macOffset..macOffset + 4][i] != tag[i];
      }
    }
  }

  /** The ciphertext part of a received frame: all but its last four octets, and nothing when it is shorter. */
  function FrameBody(buffer: bytes): (r: bytes)
    ensures |r| == if |buffer| >= 4 then |buffer| - 4 else 0
    ensures r <= buffer
  {
    Left(buffer, |buffer| - 4)
  }

  /**
   * Whether decodeMessage accepts a frame at sequence number seqNo: with
   * the tag inside the 28-octet MAC, exactly when the frame's last four
   * octets are the MAC octets at macOffset, the MAC taken over the body
   * and the sequence number.
   */
  predicate Accepts(sha1: Sha1, macKey: bytes, seqNo: nat, buffer: bytes, macOffset: nat)
    ensures var mac := QtHmac(sha1, macKey, ProcessBuffer(FrameBody(buffer), seqNo));
            |buffer| >= 4 && macOffset + 4 <= PrfLength ==>
              (Accepts(sha1, macKey, seqNo, buffer, macOffset) <==> buffer[|buffer| - 4..] == mac[macOffset..macOffset + 4])
  {
    TagMatches(QtHmac(sha1, macKey, ProcessBuffer(FrameBody(buffer), seqNo)), macOffset, Right(buffer, 4))
  }

  /**
   * The buffer encodeMessage leaves: [offset, offset + length) ciphered,
   * then the first four MAC octets over that ciphertext and the sequence
   * number written at macOffset.
   */
  function Encoded(stream: nat -> byte, pos: nat, sha1: Sha1, macKey: bytes, seqNo: nat,
                   buffer: bytes, macOffset: nat, offset: nat, length: nat): (r: bytes)
    requires offset + length <= |buffer| && macOffset + 4 <= |buffer|
    ensures |r| == |buffer|
  {
    var ct := buffer[..offset] + Crypt(stream, pos, buffer[offset..offset + length]) + buffer[offset + length..];
    var tag := QtHmac(sha1, macKey, ProcessBuffer(ct[offset..offset + length], seqNo))[..4];
    ct[..macOffset] + tag + ct[macOffset + 4..]
  }

  /**
   * The frame layout the sender produces from a plaintext with four spare
   * octets at its end: the ciphertext, then the tag over it.
   */
  lemma EncodedFrame(stream: nat -> byte, pos: nat, sha1: Sha1, macKey: bytes, seqNo: nat, plain: bytes)
    ensures var ct := Crypt(stream, pos, plain);
            Encoded(stream, pos, sha1, macKey, seqNo, plain + [0, 0, 0, 0], |plain|, 0, |plain|)
            == ct + QtHmac(sha1, macKey, ProcessBuffer(ct, seqNo))[..4]
  {
    var buffer := plain + [0, 0, 0, 0];
    assert buffer[0..|plain|] == plain;
    var ct := buffer[..0] + Crypt(stream, pos, buffer[0..|plain|]) + buffer[|plain|..];
    assert ct[0..|plain|] == Crypt(stream, pos, plain);
    assert ct[..|plain|] == Crypt(stream, pos, plain);
  }

  /**
   * The round trip: a frame encoded at sequence number n and keystream
   * position p is accepted by a decoder with the same keys at n and p,
   * and deciphers to the plaintext.
   */
  lemma FrameRoundTrip(stream: nat -> byte, pos: nat, sha1: Sha1, macKey: bytes, seqNo: nat, plain: bytes)
    ensures var frame := Encoded(stream, pos, sha1, macKey, seqNo, plain + [0, 0, 0, 0], |plain|, 0, |plain|);
            Accepts(sha1, macKey, seqNo, frame, 0) && Crypt(stream, pos, FrameBody(frame)) == plain
  {
    var frame := Encoded(stream, pos, sha1, macKey, seqNo, plain + [0, 0, 0, 0], |plain|, 0, |plain|);
    EncodedFrame(stream, pos, sha1, macKey, seqNo, plain);
    var ct := Crypt(stream, pos, plain);
    assert FrameBody(frame) == ct;
    CryptInvolutive(stream, pos, plain);
  }

  /** The nonce with the key index appended as one octet. */
  function Nonce(nonce: bytes, i: nat): (r: bytes)
    requires 1 <= i <= 4
    ensures |r| == |nonce| + 1 && r[..|nonce|] == nonce && r[|nonce|] as int == i
  {
    ByteOfInt(i);
    nonce + [i as byte]
  }

  /** The four keys of a session: deriveBytes(pass, nonce || i, 2) for i = 1..4. */
  function SessionKeys(sha1: Sha1, pass: bytes, nonce: bytes): (r: Result<seq<bytes>>)
    ensures r.Success? <==> |pass| > 0
    ensures r.Success? ==> |r.value| == 4
  {
    if |pass| == 0 then Failure(ProtocolException("PBKDF2: Empty password is invalid"))
    else Success(seq(4, i requires 0 <= i < 4 => DerivedKey(sha1, pass, Nonce(nonce, i + 1), 2).value))
  }

  /**
   * With a password of two octets or more every session key is RFC 2898
   * PBKDF2 with two iterations over the nonce and the key's index.
   */
  lemma SessionKeysArePbkdf2(sha1: Sha1, pass: bytes, nonce: bytes, i: nat)
    requires |pass| >= 2 && i < 4
    ensures SessionKeys(sha1, pass, nonce).Success?
    ensures SessionKeys(sha1, pass, nonce).value[i] == Pbkdf2(sha1, pass, Nonce(nonce, i + 1), 2, KeyLength(pass))
    ensures |SessionKeys(sha1, pass, nonce).value[i]| == KeyLength(pass)
  {
    DerivedKeyIsPbkdf2(sha1, pass, Nonce(nonce, i + 1), 2);
  }

  /** KeyStream::keyFromPasswordAndNonce. */
  method KeyFromPasswordAndNonce(sha1: Sha1, pass: bytes, nonce: bytes) returns (r: Result<seq<bytes>>)
    ensures r == SessionKeys(sha1, pass, nonce)
  {
    hide DerivedKey, F, U, HmacSha1, QtHmac;
    var keys: seq<bytes> := [];
    var i := 1;
    while i < 5
      invariant 1 <= i <= 5 && |keys| == i - 1
      invariant i > 1 ==> |pass| > 0
      invariant forall j :: 0 <= j < |keys| ==> keys[j] == DerivedKey(sha1, pass, Nonce(nonce, j + 1), 2).value
    {
      var nnonce := nonce + [i as byte];
      assert nnonce == Nonce(nonce, i);
      var key := DeriveBytes(sha1, pass, nnonce, 2);
      if key.Failure? {
        assert |pass| == 0;
        return SessionKeys(sha1, pass, nonce);
      }
      keys := keys + [key.value];
      i := i + 1;
    }
    ghost var expected := SessionKeys(sha1, pass, nonce);
    assert expected.Success? && |expected.value| == 4;
    assert forall j :: 0 <= j < 4 ==> keys[j] == expected.value[j];
    assert keys == expected.value;
    return Success(keys);
  }

  /** One direction of the stream: an RC4 state and a MAC key. */
  class KeyStream {
    const sha1: Sha1
    const macKey: bytes
    /** The keystream of the RC4 key. */
    const stream: nat -> byte
    /** How many keystream octets RC4 has used so far. */
    var pos: nat
    /** Frames handled so far. */
    var seqNo: nat

    /** KeyStream(rc4key, mackey): RC4 with 0x300 octets dropped, seq = 0. */
    constructor (rc4: Rc4, sha1: Sha1, rc4Key: bytes, macKey: bytes)
      ensures this.sha1 == sha1 && this.macKey == macKey && stream == rc4(rc4Key)
      ensures pos == Drop && seqNo == 0
    {
      this.sha1 := sha1;
      this.macKey := macKey;
      stream := rc4(rc4Key);
      pos := Drop;
      seqNo := 0;
    }

    /** RC4::Cipher(data, offset, length): in place, advancing the keystream. */
    method Cipher(data: array<byte>, offset: nat, length: nat)
      requires offset + length <= data.Length
      modifies this`pos, data
      ensures data[..] == old(data[..offset]) + Crypt(stream, old(pos), old(data[offset..offset + length])) + old(data[offset + length..])
      ensures pos == old(pos) + length
    {
      ghost var before := data[..];
      var i := 0;
      while i < length
        invariant 0 <= i <= length && pos == old(pos) + i
        invariant forall k :: 0 <= k < data.Length ==>
          data[k] == (if offset <= k < offset + i then before[k] ^ stream(old(pos) + (k - offset)) else before[k])
      {
        data[offset + i] := data[offset + i] ^ stream(pos);
        pos := pos + 1;
        i := i + 1;
      }
      var rhs := before[..offset] + Crypt(stream, old(pos), before[offset..offset + length]) + before[offset + length..];
      assert forall k :: 0 <= k < data.Length ==> data[k] == rhs[k];
    }

    /** KeyStream::encodeMessage. */
    method EncodeMessage(buffer: array<byte>, macOffset: nat, offset: nat, length: nat)
      requires offset + length <= buffer.Length && macOffset + 4 <= buffer.Length
      modifies this`pos, this`seqNo, buffer
      ensures buffer[..] == Encoded(stream, old(pos), sha1, macKey, old(seqNo), old(buffer[..]), macOffset, offset, length)
      ensures pos == old(pos) + length && seqNo == old(seqNo) + 1
    {
      Cipher(buffer, offset, length);
      var base := buffer[offset..offset + length];
      base := ProcessBuffer(base, seqNo);
      seqNo := seqNo + 1;
      var hmac := Hash(sha1, base, macKey);
      Replace(buffer, macOffset, hmac[..4]);
    }

    /** QByteArray::replace(pos, 4, data, 4): four octets overwritten in place. */
    static method Replace(buffer: array<byte>, pos: nat, data: bytes)
      requires |data| == 4 && pos + 4 <= buffer.Length
      modifies buffer
      ensures buffer[..] == old(buffer[..pos]) + data + old(buffer[pos + 4..])
    {
      buffer[pos] := data[0];
      buffer[pos + 1] := data[1];
      buffer[pos + 2] := data[2];
      buffer[pos + 3] := data[3];
      assert buffer[..] == old(buffer[..pos]) + data + old(buffer[pos + 4..]);
    }

    /**
     * KeyStream::decodeMessage: the MAC is taken over the frame body and
     * the sequence number, the body is deciphered, and the result tells
     * whether the frame's last four octets matched. offset and length
     * only appear in the source's diagnostics.
     */
    method DecodeMessage(buffer: bytes, macOffset: nat, offset: int, length: int) returns (ok: bool, plain: bytes)
      modifies this`pos, this`seqNo
      ensures ok == Accepts(sha1, macKey, old(seqNo), buffer, macOffset)
      ensures plain == Crypt(stream, old(pos), FrameBody(buffer))
      ensures pos == old(pos) + |plain| && seqNo == old(seqNo) + 1
    {
      var base := Left(buffer, |buffer| - 4);
      var hmac := Right(buffer, 4);
      var buffer2 := ProcessBuffer(base, seqNo);
      seqNo := seqNo + 1;
      buffer2 := Hash(sha1, buffer2, macKey);
      plain := CipherCopy(base);
      ok := CompareTag(buffer2, macOffset, hmac);
    }

    /** `buffer = base` followed by ciphering the whole of buffer. */
    method CipherCopy(base: bytes) returns (plain: bytes)
      modifies this`pos
      ensures plain == Crypt(stream, old(pos), base)
      ensures pos == old(pos) + |base|
    {
      var data := new byte[|base|](k requires 0 <= k < |base| => base[k]);
      assert data[..] == base;
      Cipher(data, 0, data.Length);
      assert data[..] == Crypt(stream, old(pos), base) by {
        assert base[0..|base|] == base;
      }
      plain := data[..];
    }

    /** The comparison loop, leaving at the first octet that differs. */
    static method CompareTag(mac: bytes, macOffset: nat, tag: bytes) returns (ok: bool)
      ensures ok == TagMatches(mac, macOffset, tag)
    {
      var i := 0;
      while i < 4
        invariant 0 <= i <= 4
        invariant forall j :: 0 <= j < i ==> At(mac, macOffset + j) == At(tag, j)
      {
        if At(mac, macOffset + i) != At(tag, i) {
          return false;
        }
        i := i + 1;
      }
      return true;
    }
  }

  /**
   * Two streams built from the same keys, one encoding and one decoding a
   * frame: the decoder accepts it and recovers the plaintext.
   */
  method EncodeThenDecode(rc4: Rc4, sha1: Sha1, rc4Key: bytes, macKey: bytes, plain: bytes)
      returns (ok: bool, received: bytes)
    ensures ok && received == plain
  {
    var out := new KeyStream(rc4, sha1, rc4Key, macKey);
    var inbound := new KeyStream(rc4, sha1, rc4Key, macKey);
    var frame := new byte[|plain| + 4](k requires 0 <= k < |plain| + 4 => if k < |plain| then plain[k] else 0);
    assert frame[..] == plain + [0, 0, 0, 0];
    out.EncodeMessage(frame, |plain|, 0, |plain|);
    FrameRoundTrip(out.stream, Drop, sha1, macKey, 0, plain);
    ok, received := inbound.DecodeMessage(frame[..], 0, 0, |plain|);
  }
}
