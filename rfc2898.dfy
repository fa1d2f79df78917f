// PBKDF2 (section 5.2 of RFC 2898) as QtRFC2898::deriveBytes computes it on
// Qt 4: the pseudorandom function is the Base64-rendered HMAC-SHA1 helper,
// so every block is 28 octets, and the requested length is the password
// length capped at the 20-octet SHA-1 digest size.
module Rfc2898 {
  import opened Bytes
  import opened Wrappers
  import opened Hmac

  const DigestLength: nat := 20
  /**
   * Length of one output of the pseudorandom function, the `hash` helper
   * (QtHmac): a 20-octet digest rendered in Base64.
   */
  const PrfLength: nat := 28

  /** U_k of RFC 2898: U_1 = PRF(P, S || INT(i)), U_k = PRF(P, U_{k-1}). */
  function U(sha1: Sha1, password: bytes, salt: bytes, index: nat, k: nat): (r: bytes)
    requires k >= 1
    ensures |r| == PrfLength
    decreases k
  {
    if k == 1 then QtHmac(sha1, password, salt + Be32(index))
    else QtHmac(sha1, password, U(sha1, password, salt, index, k - 1))
  }

  /** F(P, S, c, i) = U_1 xor U_2 xor ... xor U_c. */
  function F(sha1: Sha1, password: bytes, salt: bytes, c: nat, index: nat): (r: bytes)
    requires c >= 1
    ensures |r| == PrfLength
    decreases c
  {
    if c == 1 then U(sha1, password, salt, index, 1)
    else XorBytes(F(sha1, password, salt, c - 1, index), U(sha1, password, salt, index, c))
  }

  /** T_1 || ... || T_n. */
  function Blocks(sha1: Sha1, password: bytes, salt: bytes, c: nat, n: nat): (r: bytes)
    requires c >= 1
    ensures |r| == PrfLength * n
  {
    if n == 0 then [] else Blocks(sha1, password, salt, c, n - 1) + F(sha1, password, salt, c, n)
  }

  /** The reference derivation: the first dkLen octets of T_1 || ... || T_l. */
  function Pbkdf2(sha1: Sha1, password: bytes, salt: bytes, c: nat, dkLen: nat): (r: bytes)
    requires c >= 1
    ensures |r| == dkLen
  {
    var l := (dkLen + PrfLength - 1) / PrfLength;
    Blocks(sha1, password, salt, c, l)[..dkLen]
  }

  /** The inner loop runs iterations - 1 times, so anything below 1 acts as 1. */
  function Rounds(iterations: int): nat
  {
    if iterations < 1 then 1 else iterations
  }

  /** The requested length: the password length, at most one digest. */
  function KeyLength(password: bytes): nat
  {
    if |password| > DigestLength then DigestLength else |password|
  }

  /**
   * What deriveBytes returns. The block loop stops once `count` reaches
   * the key length or the output is long enough, so one block is computed
   * when the key length is at least 2 and none when it is 1.
   */
  function DerivedKey(sha1: Sha1, password: bytes, salt: bytes, iterations: int): (r: Result<bytes>)
    ensures r.Success? <==> iterations != 0 && |password| > 0
  {
    if iterations == 0 then Failure(ProtocolException("PBKDF2: Invalid iteration count"))
    else if |password| == 0 then Failure(ProtocolException("PBKDF2: Empty password is invalid"))
    else
      var keyLen := KeyLength(password);
      if keyLen >= 2 then Success(F(sha1, password, salt, Rounds(iterations), 1)[..keyLen])
      else Success([])
  }

  /** A zero iteration count is refused before the password is looked at. */
  lemma ZeroIterationsFail(sha1: Sha1, password: bytes, salt: bytes)
    ensures DerivedKey(sha1, password, salt, 0) == Failure(ProtocolException("PBKDF2: Invalid iteration count"))
  {}

  /** With a password of at least two octets the result is RFC 2898 PBKDF2. */
  lemma DerivedKeyIsPbkdf2(sha1: Sha1, password: bytes, salt: bytes, iterations: int)
    requires iterations != 0 && |password| >= 2
    ensures DerivedKey(sha1, password, salt, iterations)
         == Success(Pbkdf2(sha1, password, salt, Rounds(iterations), KeyLength(password)))
    ensures |DerivedKey(sha1, password, salt, iterations).value| == KeyLength(password)
  {
    var keyLen := KeyLength(password);
    var c := Rounds(iterations);
    assert (keyLen + PrfLength - 1) / PrfLength == 1;
    assert Blocks(sha1, password, salt, c, 1) == F(sha1, password, salt, c, 1);
  }

  /** A one-octet password yields an empty key, unlike RFC 2898. */
  lemma OneOctetPasswordGivesEmptyKey(sha1: Sha1, password: bytes, salt: bytes, iterations: int)
    requires iterations != 0 && |password| == 1
    ensures DerivedKey(sha1, password, salt, iterations) == Success([])
    ensures |Pbkdf2(sha1, password, salt, Rounds(iterations), 1)| == 1
  {}

  /** Every U_k is unchanged when the password is first reduced as HMAC reduces its key. */
  lemma {:induction false} UOfKeyBlock(sha1: Sha1, password: bytes, salt: bytes, index: nat, k: nat)
    requires k >= 1
    ensures U(sha1, KeyBlock(sha1, password), salt, index, k) == U(sha1, password, salt, index, k)
    decreases k
  {
    hide Base64, HmacSha1, KeyBlock, Be32;
    var text := if k == 1 then salt + Be32(index) else U(sha1, password, salt, index, k - 1);
    HmacOfReducedKey(sha1, password, text);
    if k > 1 {
      UOfKeyBlock(sha1, password, salt, index, k - 1);
    }
  }

  /** So is every block F. */
  lemma {:induction false} FOfKeyBlock(sha1: Sha1, password: bytes, salt: bytes, c: nat, index: nat)
    requires c >= 1
    ensures F(sha1, KeyBlock(sha1, password), salt, c, index) == F(sha1, password, salt, c, index)
    decreases c
  {
    UOfKeyBlock(sha1, password, salt, index, c);
    if c > 1 {
      FOfKeyBlock(sha1, password, salt, c - 1, index);
    }
  }

  /**
   * A password longer than the 64-octet HMAC block derives the same key as
   * its SHA-1 digest: both ask for 20 octets, and HMAC keys every round
   * with the digest.
   */
  lemma LongPasswordActsAsDigest(sha1: Sha1, password: bytes, salt: bytes, iterations: int)
    requires |password| > BlockSize
    ensures DerivedKey(sha1, password, salt, iterations) == DerivedKey(sha1, sha1(password), salt, iterations)
  {
    if iterations != 0 {
      FOfKeyBlock(sha1, password, salt, Rounds(iterations), 1);
    }
  }

  /** obuf[j] ^= d[j] for every position of obuf. */
  method XorInPlace(obuf: array<byte>, d: bytes)
    requires obuf.Length == |d|
    modifies obuf
    ensures obuf[..] == XorBytes(old(obuf[..]), d)
  {
    var j := 0;
    while j < obuf.Length
      invariant 0 <= j <= obuf.Length
      invariant forall k :: 0 <= k < obuf.Length ==> obuf[k] == (if k < j then old(obuf[k]) ^ d[k] else old(obuf[k]))
    {
      obuf[j] := obuf[j] ^ d[j];
      j := j + 1;
    }
  }

  /** asalt = salt || INT(count), then d1 = hash(asalt, key). */
  method FirstU(sha1: Sha1, key: bytes, salt: bytes, asalt: array<byte>, count: nat) returns (d1: bytes)
    requires asalt.Length == |salt| + 4 && asalt[..|salt|] == salt
    modifies asalt
    ensures asalt[..] == salt + Be32(count)
    ensures d1 == U(sha1, key, salt, count, 1)
  {
    var counter := Be32(count);
    asalt[|salt| + 0] := counter[0];
    asalt[|salt| + 1] := counter[1];
    asalt[|salt| + 2] := counter[2];
    asalt[|salt| + 3] := counter[3];
    assert asalt[..] == salt + counter;

    d1 := Hash(sha1, asalt[..], key);
  }

  /** One pass of the iteration loop: d1 = hash(d1, key), then obuf ^= d1. */
  method Iterate(sha1: Sha1, key: bytes, salt: bytes, count: nat, i: nat, d1: bytes, obuf: array<byte>)
      returns (d2: bytes)
    requires i >= 1 && d1 == U(sha1, key, salt, count, i)
    requires obuf.Length == PrfLength && obuf[..] == F(sha1, key, salt, i, count)
    modifies obuf
    ensures d2 == U(sha1, key, salt, count, i + 1)
    ensures obuf[..] == F(sha1, key, salt, i + 1, count)
  {
    d2 := Hash(sha1, d1, key);
    XorInPlace(obuf, d2);
  }

  /**
   * One pass of the block loop: patch INT(count) into the salt buffer,
   * then xor the successive PRF outputs into `obuf`.
   */
  method Block(sha1: Sha1, key: bytes, salt: bytes, asalt: array<byte>, count: nat, iterations: int)
      returns (block: bytes)
    requires asalt.Length == |salt| + 4 && asalt[..|salt|] == salt
    modifies asalt
    ensures asalt[..] == salt + Be32(count)
    ensures block == F(sha1, key, salt, Rounds(iterations), count)
  {
    var d1 := FirstU(sha1, key, salt, asalt, count);
    var obuf := new byte[|d1|](j requires 0 <= j < |d1| => d1[j]);
    assert obuf[..] == d1;
    var i := 1;
    while i < iterations
      modifies obuf
      invariant i == 1 || 1 <= i <= iterations
      invariant |d1| == obuf.Length == PrfLength
      invariant d1 == U(sha1, key, salt, count, i)
      invariant obuf[..] == F(sha1, key, salt, i, count)
    {
      d1 := Iterate(sha1, key, salt, count, i, d1, obuf);
      i := i + 1;
    }
    assert i == Rounds(iterations);
    block := obuf[..];
  }

  /** QtRFC2898::deriveBytes: nested block and iteration loops over buffers. */
  method DeriveBytes(sha1: Sha1, password: bytes, salt: bytes, iterations: int) returns (r: Result<bytes>)
    ensures r == DerivedKey(sha1, password, salt, iterations)
  {
    hide U, HmacSha1, QtHmac, Base64;
    if iterations == 0 {
      return Failure(ProtocolException("PBKDF2: Invalid iteration count"));
    }
    if |password| == 0 {
      return Failure(ProtocolException("PBKDF2: Empty password is invalid"));
    }
    var output: bytes := [];
    var asalt := new byte[|salt| + 4](i requires 0 <= i < |salt| + 4 => if i < |salt| then salt[i] else 0);
    var key := password;
    var keyLen := if |key| > DigestLength then DigestLength else |key|;
    var count := 1;
    assert asalt[..|salt|] == salt;
    assert output == Blocks(sha1, password, salt, Rounds(iterations), count - 1);
    while count < keyLen && |output| < keyLen
      invariant 1 <= count <= 2 && (count == 2 ==> keyLen >= 2)
      invariant asalt.Length == |salt| + 4 && asalt[..|salt|] == salt
      invariant output == Blocks(sha1, password, salt, Rounds(iterations), count - 1)
      decreases keyLen - count
    {
      var obuf := Block(sha1, key, salt, asalt, count, iterations);
      output := output + obuf;
      count := count + 1;
    }
    assert keyLen == KeyLength(password);
    if keyLen >= 2 {
      assert count == 2;
      assert output == F(sha1, password, salt, Rounds(iterations), 1);
    } else {
      assert count == 1;
      assert output == [];
    }
    // QByteArray::left returns the whole array when it is shorter.
    r := Success(if keyLen <= |output| then output[..keyLen] else output);
  }
}
