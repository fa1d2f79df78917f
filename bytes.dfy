// Byte-level building blocks shared by the protocol model: octets, the
// big-endian 32-bit counter layout, Qt's number and hex renderings, Base64
// and UTF-8 encoding, and the one-char-per-byte text conversion.
module Bytes {

  type byte = bv8
  type bytes = seq<byte>

  lemma ByteOfInt(x: int)
    requires 0 <= x < 0x100
    ensures (x as byte) as int == x
  {}

  // ---------------------------------------------------------------------
  // Big-endian 32-bit layout: the low four octets of n, most significant
  // first, as appended by KeyStream::processBuffer and as patched into the
  // salt by the PBKDF2 block counter.
  // ---------------------------------------------------------------------

  function Be32(n: nat): (r: bytes)
    ensures |r| == 4
  {
    var q1 := n / 0x100;
    var q2 := q1 / 0x100;
    var q3 := q2 / 0x100;
    [(q3 % 0x100) as byte, (q2 % 0x100) as byte, (q1 % 0x100) as byte, (n % 0x100) as byte]
  }

  /** The unsigned value of four octets read most significant first. */
  function BeValue(s: bytes): nat
    requires |s| == 4
  {
    (((s[0] as nat) * 0x100 + (s[1] as nat)) * 0x100 + (s[2] as nat)) * 0x100 + (s[3] as nat)
  }

  lemma ModUnique32(n: nat, q: nat, r: nat)
    requires r < 0x1_0000_0000 && n == q * 0x1_0000_0000 + r
    ensures n % 0x1_0000_0000 == r
  {}

  lemma SplitBase256(n: nat)
    ensures var q1 := n / 0x100; var q2 := q1 / 0x100; var q3 := q2 / 0x100;
            n % 0x1_0000_0000 == (((q3 % 0x100) * 0x100 + q2 % 0x100) * 0x100 + q1 % 0x100) * 0x100 + n % 0x100
  {
    var q1 := n / 0x100;
    var q2 := q1 / 0x100;
    var q3 := q2 / 0x100;
    var q4 := q3 / 0x100;
    var b0, b1, b2, b3 := n % 0x100, q1 % 0x100, q2 % 0x100, q3 % 0x100;
    assert n == q1 * 0x100 + b0;
    assert q1 == q2 * 0x100 + b1;
    assert q2 == q3 * 0x100 + b2;
    assert q3 == q4 * 0x100 + b3;
    var x := ((b3 * 0x100 + b2) * 0x100 + b1) * 0x100 + b0;
    assert n == q4 * 0x1_0000_0000 + x;
    assert x < 0x1_0000_0000;
    ModUnique32(n, q4, x);
  }

  /** Be32 writes exactly the value of n modulo 2^32, big-endian. */
  lemma Be32Value(n: nat)
    ensures BeValue(Be32(n)) == n % 0x1_0000_0000
  {
    var q1 := n / 0x100;
    var q2 := q1 / 0x100;
    var q3 := q2 / 0x100;
    ByteOfInt(q3 % 0x100);
    ByteOfInt(q2 % 0x100);
    ByteOfInt(q1 % 0x100);
    ByteOfInt(n % 0x100);
    SplitBase256(n);
  }

  lemma ModSmall(n: nat)
    requires n < 0x1_0000_0000
    ensures n % 0x1_0000_0000 == n
  {}

  /** Two counters below 2^32 never share a layout. */
  lemma Be32Injective(m: nat, n: nat)
    requires m < 0x1_0000_0000 && n < 0x1_0000_0000 && m != n
    ensures Be32(m) != Be32(n)
  {
    Be32Value(m);
    Be32Value(n);
    ModSmall(m);
    ModSmall(n);
  }

  // ---------------------------------------------------------------------
  // QByteArray slicing, with Qt's clamping instead of preconditions.
  // ---------------------------------------------------------------------

  /** QByteArray::left: the whole array when n reaches its size, nothing for n < 0. */
  function Left(s: bytes, n: int): (r: bytes)
    ensures |r| == if n >= |s| then |s| else if n < 0 then 0 else n
    ensures |r| <= |s| && r == s[..|r|]
  {
    if n >= |s| then s else if n < 0 then [] else s[..n]
  }

  /** QByteArray::right: the whole array when n reaches its size. */
  function Right(s: bytes, n: nat): (r: bytes)
    ensures |r| == if n >= |s| then |s| else n
    ensures |r| <= |s| && r == s[|s| - |r|..]
  {
    if n >= |s| then s else s[|s| - n..]
  }

  /** Reading an octet of a non-const QByteArray: 0 past the end. */
  function At(s: bytes, i: nat): byte
  {
    if i < |s| then s[i] else 0
  }

  // ---------------------------------------------------------------------
  // Text.
  // ---------------------------------------------------------------------

  /** One character per octet (Latin-1), as Qt 4 converts a QByteArray. */
  function Text(s: bytes): (r: string)
    ensures |r| == |s|
    ensures forall i :: 0 <= i < |s| ==> r[i] as int == s[i] as int
  {
    seq(|s|, i requires 0 <= i < |s| => (s[i] as int) as char)
  }

  /** The Latin-1 octet of one character: its code below 256, '?' beyond. */
  function Latin1Char(c: char): (b: byte)
    ensures c as int < 0x100 ==> b as int == c as int
    ensures c as int >= 0x100 ==> b == 0x3F
  {
    if c as int < 0x100 then ByteOfInt(c as int); (c as int) as byte else 0x3F
  }

  /** QString::toLatin1: one octet per character; a character beyond Latin-1 becomes '?'. */
  function Latin1(s: string): (r: bytes)
    ensures |r| == |s|
    ensures forall i :: 0 <= i < |s| && s[i] as int < 0x100 ==> r[i] as int == s[i] as int
    ensures forall i :: 0 <= i < |s| && s[i] as int >= 0x100 ==> r[i] == 0x3F
  {
    seq(|s|, i requires 0 <= i < |s| => Latin1Char(s[i]))
  }

  /** Latin-1 text survives toLatin1 and the one-char-per-octet conversion back. */
  lemma Latin1RoundTrip(s: string)
    requires forall i :: 0 <= i < |s| ==> s[i] as int < 0x100
    ensures Text(Latin1(s)) == s
  {
    var t := Text(Latin1(s));
    forall i | 0 <= i < |s| ensures t[i] == s[i] {
      ByteOfInt(s[i] as int);
    }
  }

  predicate IsAscii(s: string)
  {
    forall i :: 0 <= i < |s| ==> s[i] as int < 0x80
  }

  /** The UTF-8 encoding of one Unicode scalar value. */
  function Utf8Char(c: char): (r: bytes)
    ensures 1 <= |r| <= 4
    ensures (c as int < 0x80) == (|r| == 1)
  {
    var v := c as int;
    if v < 0x80 then
      [v as byte]
    else if v < 0x800 then
      [(0xC0 + v / 0x40) as byte, (0x80 + v % 0x40) as byte]
    else if v < 0x1_0000 then
      [(0xE0 + v / 0x1000) as byte, (0x80 + (v / 0x40) % 0x40) as byte, (0x80 + v % 0x40) as byte]
    else
      [(0xF0 + v / 0x4_0000) as byte, (0x80 + (v / 0x1000) % 0x40) as byte,
       (0x80 + (v / 0x40) % 0x40) as byte, (0x80 + v % 0x40) as byte]
  }

  /** QString::toUtf8. */
  function Utf8(s: string): (r: bytes)
    ensures |r| >= |s|
  {
    if |s| == 0 then [] else Utf8Char(s[0]) + Utf8(s[1..])
  }

  /** An ASCII string encodes to its own character codes, one octet each. */
  lemma {:induction false} Utf8OfAscii(s: string)
    requires IsAscii(s)
    ensures Utf8(s) == seq(|s|, i requires 0 <= i < |s| => s[i] as int as byte)
    ensures Text(Utf8(s)) == s
  {
    if |s| > 0 {
      assert IsAscii(s[1..]) by {
        forall i | 0 <= i < |s[1..]| ensures s[1..][i] as int < 0x80 {
          assert s[1..][i] == s[i + 1];
        }
      }
      Utf8OfAscii(s[1..]);
      ByteOfInt(s[0] as int);
      var r := Utf8(s);
      var ts := Text(r);
      assert |ts| == |s|;
      forall i | 0 <= i < |s| ensures ts[i] == s[i] {
        if i > 0 {
          assert r[i] == Utf8(s[1..])[i - 1];
          assert Utf8(s[1..])[i - 1] == s[1..][i - 1] as int as byte;
          ByteOfInt(s[i] as int);
        }
      }
    }
  }

  // ---------------------------------------------------------------------
  // QString::number(n, base) for the two bases the client uses.
  // ---------------------------------------------------------------------

  function HexDigit(d: nat): char
    requires d < 16
  {
    "0123456789abcdef"[d]
  }

  function DigitValue(c: char): nat
  {
    if '0' <= c <= '9' then c as nat - '0' as nat
    else if 'a' <= c <= 'f' then c as nat - 'a' as nat + 10
    else 0
  }

  lemma DigitRoundTrip(d: nat)
    requires d < 16
    ensures DigitValue(HexDigit(d)) == d
  {
    if d < 10 {
      assert HexDigit(d) as nat == '0' as nat + d;
    } else {
      assert HexDigit(d) as nat == 'a' as nat + d - 10;
    }
  }

  predicate IsBase(base: nat)
  {
    base == 10 || base == 16
  }

  /** The digits of n in the given base, lower case, no leading zeros. */
  function Number(n: nat, base: nat): (r: string)
    requires IsBase(base)
    ensures |r| >= 1
    ensures IsAscii(r)
    decreases n
  {
    if n < base then [HexDigit(n)] else Number(n / base, base) + [HexDigit(n % base)]
  }

  function ParseNumber(s: string, base: nat): nat
  {
    if |s| == 0 then 0 else ParseNumber(s[..|s| - 1], base) * base + DigitValue(s[|s| - 1])
  }

  lemma ParseNumberSnoc(p: string, c: char, base: nat)
    ensures ParseNumber(p + [c], base) == ParseNumber(p, base) * base + DigitValue(c)
  {
    assert (p + [c])[..|p + [c]| - 1] == p;
  }

  lemma DivMod(n: nat, base: nat)
    requires base > 0
    ensures (n / base) * base + n % base == n
  {}

  /** Reading back the digits gives the number. */
  lemma {:induction false} ParseNumberOfNumber(n: nat, base: nat)
    requires IsBase(base)
    ensures ParseNumber(Number(n, base), base) == n
    decreases n
  {
    if n < base {
      DigitRoundTrip(n);
    } else {
      var q, r := n / base, n % base;
      var p, d := Number(q, base), HexDigit(r);
      assert Number(n, base) == p + [d];
      ParseNumberOfNumber(q, base);
      DigitRoundTrip(r);
      DivMod(n, base);
      ParseNumberSnoc(p, d, base);
    }
  }

  /** Distinct numbers render differently. */
  lemma NumberInjective(m: nat, n: nat, base: nat)
    requires IsBase(base) && m != n
    ensures Number(m, base) != Number(n, base)
  {
    ParseNumberOfNumber(m, base);
    ParseNumberOfNumber(n, base);
  }

  /** One or more decimal digits and nothing else. */
  predicate Decimal(s: string)
  {
    |s| > 0 && forall i :: 0 <= i < |s| ==> '0' <= s[i] <= '9'
  }

  /**
   * QChar::isSpace: the controls from tab to carriage return, the space,
   * U+0085, U+00A0 and the space, line and paragraph separators of
   * Unicode 5.0.
   */
  predicate IsSpace(c: char)
  {
    ('\t' <= c <= '\r') || c == ' ' || c == '\U{85}' || c == '\U{A0}' || c == '\U{1680}' || c == '\U{180E}'
    || ('\U{2000}' <= c <= '\U{200A}') || c == '\U{2028}' || c == '\U{2029}' || c == '\U{202F}'
    || c == '\U{205F}' || c == '\U{3000}'
  }

  /** The text after its leading white space. */
  function TrimStart(s: string): (r: string)
    ensures |r| <= |s| && r == s[|s| - |r|..]
    ensures forall k :: 0 <= k < |s| - |r| ==> IsSpace(s[k])
    ensures |r| > 0 ==> !IsSpace(r[0])
    decreases |s|
  {
    if |s| > 0 && IsSpace(s[0]) then TrimStart(s[1..]) else s
  }

  /** The text before its trailing white space. */
  function TrimEnd(s: string): (r: string)
    ensures |r| <= |s| && r == s[..|r|]
    ensures forall k :: |r| <= k < |s| ==> IsSpace(s[k])
    ensures |r| > 0 ==> !IsSpace(r[|r| - 1])
    decreases |s|
  {
    if |s| > 0 && IsSpace(s[|s| - 1]) then TrimEnd(s[..|s| - 1]) else s
  }

  /** The white space Qt's number conversions skip on both sides of the number. */
  function Trimmed(s: string): string
  {
    TrimEnd(TrimStart(s))
  }

  /** Text with white space on either side trims to the text, when the text itself has none at its ends. */
  lemma {:induction false} TrimmedOfPadded(lead: string, t: string, trail: string)
    requires forall k :: 0 <= k < |lead| ==> IsSpace(lead[k])
    requires forall k :: 0 <= k < |trail| ==> IsSpace(trail[k])
    requires |t| > 0 && !IsSpace(t[0]) && !IsSpace(t[|t| - 1])
    ensures Trimmed(lead + t + trail) == t
  {
    StartOfPadded(lead, t + trail);
    assert lead + t + trail == lead + (t + trail);
    EndOfPadded(t, trail);
  }

  lemma {:induction false} StartOfPadded(lead: string, u: string)
    requires forall k :: 0 <= k < |lead| ==> IsSpace(lead[k])
    requires |u| > 0 && !IsSpace(u[0])
    ensures TrimStart(lead + u) == u
    decreases |lead|
  {
    if |lead| > 0 {
      assert (lead + u)[1..] == lead[1..] + u;
      StartOfPadded(lead[1..], u);
    }
  }

  lemma {:induction false} EndOfPadded(u: string, trail: string)
    requires forall k :: 0 <= k < |trail| ==> IsSpace(trail[k])
    requires |u| > 0 && !IsSpace(u[|u| - 1])
    ensures TrimEnd(u + trail) == u
    decreases |trail|
  {
    if |trail| > 0 {
      assert (u + trail)[..|u + trail| - 1] == u + trail[..|trail| - 1];
      EndOfPadded(u, trail[..|trail| - 1]);
    } else {
      assert u + trail == u;
    }
  }

  /** A text that starts with a character other than white space still starts with it once trimmed. */
  lemma TrimmedKeepsHead(s: string)
    requires |s| > 0 && !IsSpace(s[0])
    ensures |Trimmed(s)| > 0 && Trimmed(s)[0] == s[0]
  {
    assert TrimStart(s) == s;
  }

  /**
   * QString::toInt in base 10: decimal digits after an optional sign, with
   * white space around them skipped; text of any other form, or a value
   * outside a 32-bit int, reads as 0.
   */
  function ToInt(s: string): (r: int)
    ensures -0x8000_0000 <= r < 0x8000_0000
    ensures var t := Trimmed(s);
            !Decimal(t) && !(|t| > 0 && (t[0] == '-' || t[0] == '+') && Decimal(t[1..])) ==> r == 0
  {
    var t := Trimmed(s);
    var signed := |t| > 0 && (t[0] == '-' || t[0] == '+');
    var digits := if signed then t[1..] else t;
    var v := if signed && t[0] == '-' then -(ParseNumber(digits, 10) as int) else ParseNumber(digits, 10) as int;
    if Decimal(digits) && -0x8000_0000 <= v < 0x8000_0000 then v else 0
  }

  lemma {:induction false} NumberDecimal(n: nat)
    ensures Decimal(Number(n, 10))
    decreases n
  {
    if n >= 10 {
      NumberDecimal(n / 10);
    }
  }

  /** What QString::number wrote reads back while it fits an int. */
  lemma ToIntOfNumber(n: nat)
    requires n < 0x8000_0000
    ensures ToInt(Number(n, 10)) == n
  {
    var s := Number(n, 10);
    NumberDecimal(n);
    TrimmedOfPadded([], s, []);
    assert [] + s + [] == s;
    ParseNumberOfNumber(n, 10);
    assert s[0] != '-' && s[0] != '+';
  }

  /** With a minus sign in front it reads back negated, down to the smallest int. */
  lemma ToIntOfNegative(n: nat)
    requires n <= 0x8000_0000
    ensures ToInt("-" + Number(n, 10)) == -(n as int)
  {
    var s := "-" + Number(n, 10);
    NumberDecimal(n);
    TrimmedOfPadded([], s, []);
    assert [] + s + [] == s;
    ParseNumberOfNumber(n, 10);
    assert s[0] == '-' && s[1..] == Number(n, 10);
  }

  // ---------------------------------------------------------------------
  // QByteArray::toHex and QByteArray::toBase64.
  // ---------------------------------------------------------------------

  /** The ASCII code of a lower-case hex digit. */
  function HexOctet(d: byte): (r: byte)
    requires d < 16
    ensures r as int == HexDigit(d as nat) as int
  {
    if d < 10 then 0x30 + d else 0x57 + d
  }

  /** The hex digit of the high (half 0) or low (half 1) nibble of b. */
  function Nibble(b: byte, half: nat): byte
  {
    if half == 0 then HexOctet(b >> 4) else HexOctet(b & 0xf)
  }

  /** Two lower-case hex digits per octet, high nibble first. */
  function ToHex(s: bytes): (r: bytes)
    ensures |r| == 2 * |s|
  {
    seq(2 * |s|, k requires 0 <= k < 2 * |s| => Nibble(s[k / 2], k % 2))
  }

  /** Octet i of the input becomes digits 2i (high nibble) and 2i + 1 (low nibble). */
  lemma HexDigits(s: bytes, i: nat)
    requires i < |s|
    ensures ToHex(s)[2 * i] == Nibble(s[i], 0) && ToHex(s)[2 * i + 1] == Nibble(s[i], 1)
  {
    assert (2 * i) / 2 == i && (2 * i) % 2 == 0;
    assert (2 * i + 1) / 2 == i && (2 * i + 1) % 2 == 1;
  }

  function Base64Digit(v: byte): (r: byte)
    requires v < 64
  {
    if v < 26 then 0x41 + v
    else if v < 52 then 0x61 + (v - 26)
    else if v < 62 then 0x30 + (v - 52)
    else if v == 62 then 0x2B
    else 0x2F
  }

  const Pad64: byte := 0x3D

  /** Base64 with the standard alphabet and '=' padding. */
  function Base64(s: bytes): bytes
  {
    if |s| == 0 then []
    else if |s| == 1 then
      [Base64Digit(s[0] >> 2), Base64Digit((s[0] & 3) << 4), Pad64, Pad64]
    else if |s| == 2 then
      [Base64Digit(s[0] >> 2), Base64Digit(((s[0] & 3) << 4) | (s[1] >> 4)),
       Base64Digit((s[1] & 0xf) << 2), Pad64]
    else
      [Base64Digit(s[0] >> 2), Base64Digit(((s[0] & 3) << 4) | (s[1] >> 4)),
       Base64Digit(((s[1] & 0xf) << 2) | (s[2] >> 6)), Base64Digit(s[2] & 0x3f)]
      + Base64(s[3..])
  }

  /** Every started group of three octets becomes four characters. */
  lemma {:induction false} Base64Length(s: bytes)
    ensures |Base64(s)| == 4 * ((|s| + 2) / 3)
    decreases |s|
  {
    if |s| > 2 {
      Base64Length(s[3..]);
    }
  }
}
