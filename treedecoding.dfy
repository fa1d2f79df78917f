// What the binary tree decoder computes, as functions of the decoded
// stanza and a cursor into it. Every read returns whether it succeeded,
// its value, the cursor after it and whether it hit the fatal path
// (`harakiri`, which drops the connection but lets decoding go on).
module TreeDecoding {
  import opened Bytes
  import opened ProtocolTree

  // ---------------------------------------------------------------------
  // The token dictionary, kept abstract: a lookup from (sub-dictionary,
  // token) to a string and the sub-dictionary it leaves.
  // ---------------------------------------------------------------------

  datatype TokenEntry = TokenEntry(text: string, subdict: int)
  datatype Dictionary = Dictionary(primarySize: int, lookup: (int, int) -> TokenEntry)

  /** The primary dictionary ends before the reserved list tokens. */
  predicate ValidDictionary(d: Dictionary)
  {
    3 <= d.primarySize < ListEight
  }

  // Token values with a fixed meaning; the decoder reads octets into ints.
  const ListEmpty: nat := 0
  const ListEight: nat := 248
  const ListSixteen: nat := 249
  const JidPair: nat := 250
  const HexEight: nat := 251
  const BinaryEight: nat := 252
  const BinaryTwentyFour: nat := 253
  const TokenEight: nat := 254
  const NibbleEight: nat := 255

  const At: byte := 0x40

  datatype Read<T> = Read(ok: bool, value: T, pos: nat, fatal: bool)

  /** The cursor only moves forward and stays inside the stream. */
  predicate Moves(s: bytes, p: nat, q: nat)
  {
    p <= q <= |s|
  }

  // ---------------------------------------------------------------------
  // Fixed-size reads. A read that runs out of octets consumes what is left.
  // ---------------------------------------------------------------------

  function ReadInt8(s: bytes, p: nat): (r: Read<nat>)
    requires p <= |s|
    ensures Moves(s, p, r.pos) && !r.fatal
    ensures r.ok <==> p < |s|
    ensures r.ok ==> r.value == s[p] as nat && r.pos == p + 1
    ensures !r.ok ==> r.pos == p
    ensures r.value < 0x100
  {
    if p < |s| then Read(true, s[p] as nat, p + 1, false) else Read(false, 0, p, false)
  }

  /** An unsigned 16-bit value stored into a signed 16-bit variable. */
  function Signed16(hi: nat, lo: nat): (r: int)
    requires hi < 0x100 && lo < 0x100
    ensures -0x8000 <= r < 0x8000
    ensures (r - (hi * 0x100 + lo)) % 0x1_0000 == 0
    ensures hi < 0x80 ==> r == hi * 0x100 + lo
  {
    var v := hi * 0x100 + lo;
    if v >= 0x8000 then v - 0x1_0000 else v
  }

  function ReadInt16(s: bytes, p: nat): (r: Read<int>)
    requires p <= |s|
    ensures Moves(s, p, r.pos) && !r.fatal
    ensures r.ok <==> p + 2 <= |s|
    ensures r.ok ==> r.value == Signed16(s[p] as nat, s[p + 1] as nat) && r.pos == p + 2
    ensures !r.ok ==> r.pos == |s|
  {
    if p + 2 <= |s| then Read(true, Signed16(s[p] as nat, s[p + 1] as nat), p + 2, false) else Read(false, 0, |s|, false)
  }

  function ReadInt24(s: bytes, p: nat): (r: Read<nat>)
    requires p <= |s|
    ensures Moves(s, p, r.pos) && !r.fatal
    ensures r.ok <==> p + 3 <= |s|
    ensures r.ok ==> r.value == Int24(s[p] as nat, s[p + 1] as nat, s[p + 2] as nat) && r.pos == p + 3
    ensures !r.ok ==> r.pos == |s|
  {
    if p + 3 <= |s| then
      Read(true, Int24(s[p] as nat, s[p + 1] as nat, s[p + 2] as nat), p + 3, false)
    else Read(false, 0, |s|, false)
  }

  /** fillArray: up to n octets; it succeeds when all n were there. */
  function FillArray(s: bytes, p: nat, n: nat): (r: Read<bytes>)
    requires p <= |s|
    ensures Moves(s, p, r.pos) && !r.fatal
    ensures r.ok <==> p + n <= |s|
    ensures r.value == s[p..r.pos]
    ensures r.ok ==> |r.value| == n
  {
    var m := if p + n <= |s| then n else |s| - p;
    Read(m == n, s[p..p + m], p + m, false)
  }

  // ---------------------------------------------------------------------
  // List sizes.
  // ---------------------------------------------------------------------

  predicate IsListTag(b: nat)
  {
    b == ListEight || b == ListEmpty || b == ListSixteen
  }

  function ReadListSize(s: bytes, p: nat, token: nat): (r: Read<int>)
    requires p <= |s|
    ensures Moves(s, p, r.pos)
    ensures r.fatal <==> !IsListTag(token)
    ensures token == ListEmpty ==> r == Read(true, 0, p, false)
    ensures token == ListEight ==> r.ok == (p < |s|) && (r.ok ==> r.value == s[p] as int && r.pos == p + 1)
    ensures token == ListSixteen ==> r.ok == (p + 2 <= |s|) && (r.ok ==> r.value == Signed16(s[p] as nat, s[p + 1] as nat))
  {
    if token == ListEmpty then Read(true, 0, p, false)
    else if token == ListEight then
      var b := ReadInt8(s, p);
      if b.ok then Read(true, b.value, b.pos, false) else Read(false, -1, b.pos, false)
    else if token == ListSixteen then
      var b := ReadInt16(s, p);
      if b.ok then Read(true, b.value, b.pos, false) else Read(false, -1, b.pos, false)
    else Read(false, -1, p, true)
  }

  // ---------------------------------------------------------------------
  // Strings.
  // ---------------------------------------------------------------------

  /**
   * getToken: a lookup in the primary dictionary; an empty entry makes the
   * next octet a second lookup, in the sub-dictionary the first one left.
   */
  function GetToken(d: Dictionary, s: bytes, p: nat, token: int): (r: Read<bytes>)
    requires p <= |s|
    ensures Moves(s, p, r.pos) && r.pos <= p + 1
  {
    var first := d.lookup(0, token);
    if first.text != "" then Read(true, Utf8(first.text), p, false)
    else
      var ext := ReadInt8(s, p);
      if !ext.ok then Read(false, [], p, false)
      else
        var second := d.lookup(first.subdict, ext.value);
        if second.text != "" then Read(true, Utf8(second.text), ext.pos, false)
        else Read(false, [], ext.pos, true)
  }

  /** The hex digit 'a' stands for '-' and 'b' for '.' in packed strings. */
  function PackedChar(c: byte): byte
  {
    if c == 0x61 then 0x2D else if c == 0x62 then 0x2E else c
  }

  /** The low seven bits of a packed string's length octet: how many octets follow. */
  function PackedLength(lengthOctet: nat): (r: nat)
    ensures r < 0x80
  {
    lengthOctet % 0x80
  }

  /** The high bit of the length octet: the last nibble is padding. */
  predicate OddDigits(lengthOctet: nat)
  {
    lengthOctet >= 0x80
  }

  /** How many hex digits a packed string keeps: two per octet, one less when the high bit is set. */
  function NibbleCount(lengthOctet: nat): int
  {
    PackedLength(lengthOctet) * 2 - (if OddDigits(lengthOctet) then 1 else 0)
  }

  function Separators(hex: bytes): (r: bytes)
    ensures |r| == |hex|
  {
    seq(|hex|, i requires 0 <= i < |hex| => PackedChar(hex[i]))
  }

  /**
   * The digits of a packed string: the low seven bits of the length octet
   * count the octets, the high bit drops the last nibble.
   */
  function Unpack(lengthOctet: nat, packed: bytes): (r: bytes)
    ensures |r| == if NibbleCount(lengthOctet) < 0 then 0
                   else if NibbleCount(lengthOctet) > 2 * |packed| then 2 * |packed|
                   else NibbleCount(lengthOctet)
    ensures forall k :: 0 <= k < |r| ==> r[k] == PackedChar(Nibble(packed[k / 2], k % 2))
  {
    Separators(Left(ToHex(packed), NibbleCount(lengthOctet)))
  }

  /** readString(s): a token octet, then the string it introduces. */
  function ReadString(d: Dictionary, s: bytes, p: nat): (r: Read<bytes>)
    requires p <= |s|
    ensures Moves(s, p, r.pos)
    ensures p == |s| ==> r == Read(false, [], p, false)
    decreases |s| - p, 2
  {
    if p < |s| then ReadStringToken(d, s, p + 1, s[p] as nat) else Read(false, [], p, false)
  }

  /** readString(token, s), with q the cursor after the token octet. */
  function ReadStringToken(d: Dictionary, s: bytes, q: nat, token: nat): (r: Read<bytes>)
    requires q <= |s|
    ensures Moves(s, q, r.pos)
    ensures token == ListEmpty ==> r == Read(false, [], q, false)
    decreases |s| - q + 1, 1
  {
    if 2 < token < d.primarySize then GetToken(d, s, q, token)
    else if token == ListEmpty then Read(false, [], q, false)
    else if token == BinaryEight then ReadBinary8(s, q)
    else if token == BinaryTwentyFour then ReadBinary24(s, q)
    else if token == TokenEight then ReadExtended(d, s, q)
    else if token == JidPair then ReadJid(d, s, q)
    else if token == HexEight || token == NibbleEight then ReadPacked(s, q)
    else Read(false, [], q, true)
  }

  /** Token 252: an 8-bit length, then that many literal octets. */
  function ReadBinary8(s: bytes, q: nat): (r: Read<bytes>)
    requires q <= |s|
    ensures Moves(s, q, r.pos) && !r.fatal
    ensures q < |s| ==> r == FillArray(s, q + 1, s[q] as nat)
    ensures q == |s| ==> r == Read(false, [], q, false)
  {
    var n := ReadInt8(s, q);
    if !n.ok then Read(false, [], n.pos, false) else FillArray(s, n.pos, n.value)
  }

  /** Token 253: a 24-bit length, then that many literal octets. */
  function ReadBinary24(s: bytes, q: nat): (r: Read<bytes>)
    requires q <= |s|
    ensures Moves(s, q, r.pos) && !r.fatal
    ensures q + 3 <= |s| ==> r == FillArray(s, q + 3, Int24(s[q] as nat, s[q + 1] as nat, s[q + 2] as nat))
    ensures q + 3 > |s| ==> r == Read(false, [], |s|, false)
  {
    var n := ReadInt24(s, q);
    if !n.ok then Read(false, [], n.pos, false) else FillArray(s, n.pos, n.value)
  }

  /** Token 254: the next octet indexes the dictionary past its primary part. */
  function ReadExtended(d: Dictionary, s: bytes, q: nat): (r: Read<bytes>)
    requires q <= |s|
    ensures Moves(s, q, r.pos)
    ensures q < |s| ==> r == GetToken(d, s, q + 1, d.primarySize + s[q] as int)
    ensures q == |s| ==> r == Read(false, [], q, false)
  {
    var t := ReadInt8(s, q);
    if !t.ok then Read(false, [], t.pos, false) else GetToken(d, s, t.pos, d.primarySize + t.value)
  }

  /** Token 250: user then server; the user part may be missing, the server may not. */
  function ReadJid(d: Dictionary, s: bytes, q: nat): (r: Read<bytes>)
    requires q <= |s|
    ensures Moves(s, q, r.pos)
    decreases |s| - q + 1, 0
  {
    var user := ReadString(d, s, q);
    var server := ReadString(d, s, user.pos);
    var fatal := user.fatal || server.fatal;
    if user.ok && server.ok then Read(true, user.value + [At] + server.value, server.pos, fatal)
    else if server.ok then Read(true, server.value, server.pos, fatal)
    else Read(false, [], server.pos, true)
  }

  /** Tokens 251 and 255: a length octet, then the packed octets it announces. */
  function ReadPacked(s: bytes, q: nat): (r: Read<bytes>)
    requires q <= |s|
    ensures Moves(s, q, r.pos) && !r.fatal
    ensures r.ok <==> q < |s| && q + 1 + PackedLength(s[q] as nat) <= |s|
    ensures r.ok ==> var e := q + 1 + PackedLength(s[q] as nat);
                     r == Read(true, Unpack(s[q] as nat, s[q + 1..e]), e, false)
  {
    var n := ReadInt8(s, q);
    if !n.ok then Read(false, [], n.pos, false)
    else
      var packed := FillArray(s, n.pos, PackedLength(n.value));
      if !packed.ok then Read(false, [], packed.pos, false)
      else Read(true, Unpack(n.value, packed.value), packed.pos, false)
  }

  // ---------------------------------------------------------------------
  // Nodes.
  // ---------------------------------------------------------------------

  /**
   * How many key/value pairs a node of this list size carries: the size
   * counts its tag, two per attribute, and one more when it has content
   * (children or a payload).
   */
  function AttribCount(size: int): (r: int)
    ensures size >= 1 ==> r >= 0 && size == 1 + 2 * r + (if size % 2 == 0 then 1 else 0)
  {
    (size - 2 + size % 2) / 2
  }

  datatype AttrRead = AttrRead(attributes: Attributes, pos: nat, fatal: bool)

  /** readAttributes: pairs that fail to decode are skipped, never reported. */
  function ReadAttributes(d: Dictionary, s: bytes, p: nat, count: nat, attrs: Attributes): (r: AttrRead)
    requires p <= |s|
    ensures Moves(s, p, r.pos)
    ensures attrs.Keys <= r.attributes.Keys
    decreases count
  {
    if count == 0 then AttrRead(attrs, p, false)
    else
      var key := ReadString(d, s, p);
      var value := if key.ok then ReadString(d, s, key.pos) else Read(false, [], key.pos, false);
      var attrs' := if key.ok && value.ok then attrs[Text(key.value) := Text(value.value)] else attrs;
      var rest := ReadAttributes(d, s, value.pos, count - 1, attrs');
      AttrRead(rest.attributes, rest.pos, key.fatal || value.fatal || rest.fatal)
  }

  datatype TreeRead = TreeRead(ok: bool, node: Node, pos: nat, fatal: bool)

  /**
   * nextTreeInternal: list size, tag, attributes, then (for an even size)
   * either children or a payload. `node` is the node being filled in; its
   * tag and attributes are set even when a later step fails.
   */
  function NextTreeInternal(d: Dictionary, s: bytes, p: nat, node: Node): (r: TreeRead)
    requires p <= |s|
    ensures Moves(s, p, r.pos)
    ensures p == |s| ==> r == TreeRead(false, node, p, false)
    decreases |s| - p, 1
  {
    var b := ReadInt8(s, p);
    if !b.ok then TreeRead(false, node, b.pos, false)
    else
      var size := ReadListSize(s, b.pos, b.value);
      if !size.ok then TreeRead(false, node, size.pos, size.fatal)
      else if size.value < 0 then TreeRead(false, node, size.pos, false)
      else
        var t := ReadInt8(s, size.pos);
        if !t.ok then TreeRead(false, node, t.pos, false)
        else
          var tag := ReadStringToken(d, s, t.pos, t.value);
          if !tag.ok then TreeRead(false, node, tag.pos, tag.fatal)
          else
            var count := AttribCount(size.value);
            var attrs := ReadAttributes(d, s, tag.pos, if count < 0 then 0 else count, map[]);
            var node1 := node.(tag := Text(tag.value), attributes := attrs.attributes);
            var fatal := tag.fatal || attrs.fatal;
            if size.value % 2 == 1 then TreeRead(true, node1, attrs.pos, fatal)
            else
              var c := ReadInt8(s, attrs.pos);
              if !c.ok then TreeRead(false, node1, c.pos, fatal)
              else if IsListTag(c.value) then
                var list := ReadList(d, s, p, c.pos, c.value, node1);
                TreeRead(list.ok, list.node, list.pos, fatal || list.fatal)
              else
                var data := ReadStringToken(d, s, c.pos, c.value);
                if !data.ok then TreeRead(false, node1, data.pos, fatal || data.fatal)
                else TreeRead(true, node1.(data := data.value), data.pos, fatal || data.fatal)
  }

  /** readList, for the node that started at `start`. */
  function ReadList(d: Dictionary, s: bytes, start: nat, p: nat, token: nat, node: Node): (r: TreeRead)
    requires start < p <= |s|
    ensures Moves(s, p, r.pos)
    decreases |s| - start, 0, 1
  {
    var size := ReadListSize(s, p, token);
    if !size.ok then TreeRead(false, node, size.pos, size.fatal)
    else ReadChildren(d, s, start, size.pos, if size.value < 0 then 0 else size.value, node)
  }

  /** The child loop of readList: n children, each added whatever its decode gave. */
  function ReadChildren(d: Dictionary, s: bytes, start: nat, p: nat, n: nat, node: Node): (r: TreeRead)
    requires start < p <= |s|
    ensures Moves(s, p, r.pos) && r.ok
    decreases |s| - start, 0, 0, n
  {
    if n == 0 then TreeRead(true, node, p, false)
    else
      var child := NextTreeInternal(d, s, p, Empty);
      var rest := ReadChildren(d, s, start, child.pos, n - 1, node.(children := node.children + [child.node]));
      TreeRead(true, rest.node, rest.pos, child.fatal || rest.fatal)
  }

  // ---------------------------------------------------------------------
  // Properties of the decoder on particular shapes of input.
  // ---------------------------------------------------------------------

  /** The stanza header: four flag bits above a 20-bit length. */
  function HeaderFlags(header: nat): (r: nat)
    ensures r < 0x10
  {
    (header / 0x10_0000) % 0x10
  }

  function HeaderLength(header: nat): (r: nat)
    ensures r < 0x10_0000
    ensures header < 0x100_0000 ==> header == HeaderFlags(header) * 0x10_0000 + r
  {
    assert header < 0x100_0000 ==> header / 0x10_0000 < 0x10;
    header % 0x10_0000
  }

  /** Three octets, most significant first. */
  function Int24(a: nat, b: nat, c: nat): nat
  {
    (a * 0x100 + b) * 0x100 + c
  }

  lemma SplitAt20(v: nat, q: nat, r: nat)
    requires r < 0x10_0000 && v == q * 0x10_0000 + r
    ensures v / 0x10_0000 == q && v % 0x10_0000 == r
  {}

  /** The flags are the high nibble of the first octet, the length the rest. */
  lemma HeaderSplit(h0: nat, h1: nat, h2: nat)
    requires h0 < 0x100 && h1 < 0x100 && h2 < 0x100
    ensures var v := Int24(h0, h1, h2);
            HeaderFlags(v) == h0 / 0x10 && HeaderLength(v) == Int24(h0 % 0x10, h1, h2)
            && v == HeaderFlags(v) * 0x10_0000 + HeaderLength(v)
  {
    var v := Int24(h0, h1, h2);
    var hi := h0 / 0x10;
    var lo := h0 % 0x10;
    var low := Int24(lo, h1, h2);
    assert h0 == hi * 0x10 + lo;
    assert v == hi * 0x10_0000 + low;
    assert low < 0x10_0000;
    SplitAt20(v, hi, low);
    assert hi < 0x10;
  }

  /** Token 252: exactly n literal octets after the length octet n. */
  lemma EightBitLiteral(d: Dictionary, s: bytes, q: nat)
    requires ValidDictionary(d) && q < |s|
    ensures var r := ReadStringToken(d, s, q, BinaryEight);
            (r.ok <==> q + 1 + s[q] as nat <= |s|)
            && (r.ok ==> r.value == s[q + 1..q + 1 + s[q] as nat] && r.pos == q + 1 + s[q] as nat)
            && !r.fatal
  {}

  /** Token 253: exactly n literal octets after a 24-bit length n. */
  lemma TwentyFourBitLiteral(d: Dictionary, s: bytes, q: nat)
    requires ValidDictionary(d) && q + 3 <= |s|
    ensures var n := Int24(s[q] as nat, s[q + 1] as nat, s[q + 2] as nat);
            var r := ReadStringToken(d, s, q, BinaryTwentyFour);
            (r.ok <==> q + 3 + n <= |s|) && (r.ok ==> r.value == s[q + 3..q + 3 + n]) && !r.fatal
  {}

  /** Token 254: the next octet indexes the dictionary past its primary part. */
  lemma ExtendedToken(d: Dictionary, s: bytes, q: nat)
    requires ValidDictionary(d) && q < |s|
    ensures ReadStringToken(d, s, q, TokenEight) == GetToken(d, s, q + 1, d.primarySize + s[q] as int)
  {}

  /** A token of the primary dictionary is looked up, the dictionary decides the rest. */
  lemma PrimaryToken(d: Dictionary, s: bytes, q: nat, token: nat)
    requires 2 < token < d.primarySize && q <= |s|
    ensures ReadStringToken(d, s, q, token) == GetToken(d, s, q, token)
    ensures d.lookup(0, token).text != "" ==> ReadStringToken(d, s, q, token) == Read(true, Utf8(d.lookup(0, token).text), q, false)
  {}

  /**
   * A missing primary entry reads one more octet, looked up with the
   * sub-dictionary the first lookup left; an empty second entry is fatal.
   */
  lemma SecondLookup(d: Dictionary, s: bytes, q: nat, token: int)
    requires q < |s| && d.lookup(0, token).text == ""
    ensures var second := d.lookup(d.lookup(0, token).subdict, s[q] as int);
            var r := GetToken(d, s, q, token);
            r.pos == q + 1 && (r.ok <==> second.text != "") && (r.ok ==> r.value == Utf8(second.text)) && (r.fatal <==> !r.ok)
  {}

  /** A literal string of at most 255 octets, encoded with token 252. */
  function Literal(v: bytes): (r: bytes)
    requires |v| < 0x100
    ensures |r| == |v| + 2 && r[0] as nat == BinaryEight && r[1] as int == |v| && r[2..] == v
  {
    ByteOfInt(|v|);
    [BinaryEight as byte, |v| as byte] + v
  }

  /** A literal is read back as its octets, wherever it sits in the stream. */
  lemma ReadLiteral(d: Dictionary, s: bytes, p: nat, v: bytes)
    requires ValidDictionary(d) && |v| < 0x100
    requires p + |v| + 2 <= |s| && s[p..p + |v| + 2] == Literal(v)
    ensures ReadString(d, s, p) == Read(true, v, p + |v| + 2, false)
  {
    var l := Literal(v);
    assert s[p] == l[0] && s[p + 1] == l[1];
    assert s[p + 2..p + 2 + |v|] == l[2..];
  }

  /** A JID-pair token reads the two strings after it. */
  lemma JidToken(d: Dictionary, s: bytes, p: nat)
    requires ValidDictionary(d) && p < |s| && s[p] == JidPair as byte
    ensures ReadString(d, s, p) == ReadJid(d, s, p + 1)
  {
    assert s[p] as nat == JidPair;
  }

  /** A JID pair of two literals reads as user@server. */
  lemma JidOfUserAndServer(d: Dictionary, user: bytes, server: bytes)
    requires ValidDictionary(d) && |user| < 0x100 && |server| < 0x100
    ensures var s := [JidPair as byte] + Literal(user) + Literal(server);
            ReadString(d, s, 0) == Read(true, user + [At] + server, |s|, false)
  {
    var s := [JidPair as byte] + Literal(user) + Literal(server);
    var k := 1 + |Literal(user)|;
    assert s[1..k] == Literal(user);
    assert s[k..|s|] == Literal(server);
    ReadLiteral(d, s, 1, user);
    ReadLiteral(d, s, k, server);
    assert s[0] == JidPair as byte;
    JidToken(d, s, 0);
  }

  /** A JID pair whose user part is the empty token reads as the server alone. */
  lemma JidOfServerOnly(d: Dictionary, server: bytes)
    requires ValidDictionary(d) && |server| < 0x100
    ensures var s := [JidPair as byte, ListEmpty as byte] + Literal(server);
            ReadString(d, s, 0) == Read(true, server, |s|, false)
  {
    var s := [JidPair as byte, ListEmpty as byte] + Literal(server);
    assert s[0] as nat == JidPair && s[1] as nat == ListEmpty;
    assert ReadString(d, s, 1) == Read(false, [], 2, false);
    assert s[2..|s|] == Literal(server);
    ReadLiteral(d, s, 2, server);
    assert ReadString(d, s, 0) == ReadJid(d, s, 1);
  }

  /** A JID pair whose server part fails to decode is fatal. */
  lemma JidWithoutServer(d: Dictionary, user: bytes)
    requires ValidDictionary(d) && |user| < 0x100
    ensures var s := [JidPair as byte] + Literal(user) + [ListEmpty as byte];
            var r := ReadString(d, s, 0);
            !r.ok && r.fatal
  {
    var s := [JidPair as byte] + Literal(user) + [ListEmpty as byte];
    var k := 1 + |Literal(user)|;
    assert s[1..k] == Literal(user);
    ReadLiteral(d, s, 1, user);
    assert s[0] as nat == JidPair && s[k] as nat == ListEmpty;
    assert ReadString(d, s, k) == Read(false, [], k + 1, false);
    assert ReadString(d, s, 0) == ReadJid(d, s, 1);
  }

  /** A packed string as the first token of a stream. */
  lemma PackedAtStart(d: Dictionary, s: bytes)
    requires ValidDictionary(d) && 2 <= |s| && (s[0] as nat == HexEight || s[0] as nat == NibbleEight)
    requires 2 + PackedLength(s[1] as nat) <= |s|
    ensures var e := 2 + PackedLength(s[1] as nat);
            ReadString(d, s, 0) == Read(true, Unpack(s[1] as nat, s[2..e]), e, false)
  {
    hide Unpack, ReadStringToken, ReadPacked;
    PackedRead(d, s, 1, s[0] as nat);
  }

  /** Tokens 251 and 255 keep the digits of the announced octets. */
  lemma PackedRead(d: Dictionary, s: bytes, q: nat, token: nat)
    requires ValidDictionary(d) && q < |s| && (token == HexEight || token == NibbleEight)
    ensures var size := PackedLength(s[q] as nat);
            var r := ReadStringToken(d, s, q, token);
            (r.ok <==> q + 1 + size <= |s|) && !r.fatal
            && (r.ok ==> r == Read(true, Unpack(s[q] as nat, s[q + 1..q + 1 + size]), q + 1 + size, false))
  {
    assert ReadStringToken(d, s, q, token) == ReadPacked(s, q);
  }

  /**
   * A packed string that is as long as its length octet says has two
   * digits per octet, one less when the high bit is set, and holds only
   * decimal digits, '-', '.' and 'c' to 'f'.
   */
  lemma UnpackDigits(lengthOctet: nat, packed: bytes)
    requires |packed| == PackedLength(lengthOctet)
    ensures var r := Unpack(lengthOctet, packed);
            && |r| == (if NibbleCount(lengthOctet) < 0 then 0 else NibbleCount(lengthOctet))
            && (forall k :: 0 <= k < |r| ==> (0x30 <= r[k] <= 0x39) || r[k] == 0x2D || r[k] == 0x2E || (0x63 <= r[k] <= 0x66))
  {
    var r := Unpack(lengthOctet, packed);
    forall k | 0 <= k < |r|
      ensures (0x30 <= r[k] <= 0x39) || r[k] == 0x2D || r[k] == 0x2E || (0x63 <= r[k] <= 0x66)
    {
      var n := if k % 2 == 0 then packed[k / 2] >> 4 else packed[k / 2] & 0xf;
      assert Nibble(packed[k / 2], k % 2) == HexOctet(n);
    }
  }

  /** readList adds one child per announced entry, whether or not it decoded. */
  lemma {:induction false} ChildrenAdded(d: Dictionary, s: bytes, start: nat, p: nat, n: nat, node: Node)
    requires start < p <= |s|
    ensures |ReadChildren(d, s, start, p, n, node).node.children| == |node.children| + n
    ensures ReadChildren(d, s, start, p, n, node).node.children[..|node.children|] == node.children
    ensures ReadChildren(d, s, start, p, n, node).node.(children := node.children) == node
    decreases n
  {
    if n > 0 {
      var child := NextTreeInternal(d, s, p, Empty);
      var node' := node.(children := node.children + [child.node]);
      ChildrenAdded(d, s, start, child.pos, n - 1, node');
      var r := ReadChildren(d, s, start, child.pos, n - 1, node');
      assert r.node.children[..|node.children|] == r.node.children[..|node'.children|][..|node.children|];
    }
  }

  /** Children read at the end of the stream are default nodes. */
  lemma {:induction false} ChildrenAtEnd(d: Dictionary, s: bytes, start: nat, n: nat, node: Node)
    requires start < |s|
    ensures ReadChildren(d, s, start, |s|, n, node).node.children == node.children + seq(n, _ => Empty)
    decreases n
  {
    if n > 0 {
      var node' := node.(children := node.children + [Empty]);
      ChildrenAtEnd(d, s, start, n - 1, node');
      assert node'.children + seq(n - 1, _ => Empty) == node.children + seq(n, _ => Empty);
    }
  }

  // ---------------------------------------------------------------------
  // Attributes: what readAttributes leaves in the map.
  // ---------------------------------------------------------------------

  /** A pair whose key or value fails to decode is skipped: the map is unchanged. */
  lemma PairSkipped(d: Dictionary, s: bytes, p: nat, count: nat, attrs: Attributes)
    requires p <= |s| && count > 0
    ensures var key := ReadString(d, s, p);
            var value := if key.ok then ReadString(d, s, key.pos) else Read(false, [], key.pos, false);
            var r := ReadAttributes(d, s, p, count, attrs);
            var rest := ReadAttributes(d, s, value.pos, count - 1, attrs);
            !(key.ok && value.ok) ==> r.attributes == rest.attributes && r.pos == rest.pos
  {}

  /** A pair whose key is the empty token costs one octet, changes nothing and is not fatal. */
  lemma EmptyKeySkipped(d: Dictionary, s: bytes, p: nat, count: nat, attrs: Attributes)
    requires p < |s| && s[p] as nat == ListEmpty && count > 0
    ensures ReadAttributes(d, s, p, count, attrs) == ReadAttributes(d, s, p + 1, count - 1, attrs)
  {}

  /** A pair that decodes is inserted, replacing an earlier value under the same key. */
  lemma PairInserted(d: Dictionary, s: bytes, p: nat, count: nat, attrs: Attributes)
    requires p <= |s| && count > 0
    ensures var key := ReadString(d, s, p);
            var r := ReadAttributes(d, s, p, count, attrs);
            key.ok && ReadString(d, s, key.pos).ok ==>
              var value := ReadString(d, s, key.pos);
              var rest := ReadAttributes(d, s, value.pos, count - 1, attrs[Text(key.value) := Text(value.value)]);
              r.attributes == rest.attributes && r.pos == rest.pos
  {}

  /** One pair read and inserted, and the rest of the pairs read after it. */
  lemma PairRead(d: Dictionary, s: bytes, p: nat, count: nat, attrs: Attributes)
    requires p <= |s| && count > 0
    requires ReadString(d, s, p).ok && ReadString(d, s, ReadString(d, s, p).pos).ok
    ensures var key := ReadString(d, s, p);
            var value := ReadString(d, s, key.pos);
            var rest := ReadAttributes(d, s, value.pos, count - 1, attrs[Text(key.value) := Text(value.value)]);
            ReadAttributes(d, s, p, count, attrs) == AttrRead(rest.attributes, rest.pos, key.fatal || value.fatal || rest.fatal)
  {}

  /** Every key/value pair of the sequence inserted in turn, the last one winning. */
  function InsertAll(attrs: Attributes, pairs: seq<(bytes, bytes)>): Attributes
    decreases |pairs|
  {
    if pairs == [] then attrs else InsertAll(attrs[Text(pairs[0].0) := Text(pairs[0].1)], pairs[1..])
  }

  /**
   * The keys after the inserts are the old ones and those of the pairs,
   * and a key no pair names keeps its value.
   */
  lemma {:induction false} InsertAllKeys(attrs: Attributes, pairs: seq<(bytes, bytes)>)
    ensures var r := InsertAll(attrs, pairs);
            && (forall k :: k in attrs ==> k in r)
            && (forall i :: 0 <= i < |pairs| ==> Text(pairs[i].0) in r)
            && (forall k :: k in r ==> k in attrs || exists i :: 0 <= i < |pairs| && Text(pairs[i].0) == k)
            && (forall k :: k in attrs && (forall i :: 0 <= i < |pairs| ==> Text(pairs[i].0) != k) ==> r[k] == attrs[k])
    decreases |pairs|
  {
    if pairs != [] {
      InsertAllKeys(attrs[Text(pairs[0].0) := Text(pairs[0].1)], pairs[1..]);
      assert forall i :: 0 < i < |pairs| ==> pairs[1..][i - 1] == pairs[i];
    }
  }

  /** The value stored under a key is that of the last pair carrying it. */
  lemma {:induction false} InsertAllLastWins(attrs: Attributes, pairs: seq<(bytes, bytes)>, i: nat)
    requires i < |pairs|
    requires forall j :: i < j < |pairs| ==> Text(pairs[j].0) != Text(pairs[i].0)
    ensures Text(pairs[i].0) in InsertAll(attrs, pairs) && InsertAll(attrs, pairs)[Text(pairs[i].0)] == Text(pairs[i].1)
    decreases |pairs|
  {
    var attrs' := attrs[Text(pairs[0].0) := Text(pairs[0].1)];
    if i == 0 {
      assert forall j :: 0 <= j < |pairs[1..]| ==> Text(pairs[1..][j].0) != Text(pairs[0].0) by {
        forall j | 0 <= j < |pairs[1..]| ensures Text(pairs[1..][j].0) != Text(pairs[0].0) {
          assert pairs[1..][j] == pairs[j + 1];
        }
      }
      InsertAllKeys(attrs', pairs[1..]);
    } else {
      forall j | i - 1 < j < |pairs[1..]| ensures Text(pairs[1..][j].0) != Text(pairs[1..][i - 1].0) {
        assert pairs[1..][j] == pairs[j + 1];
      }
      InsertAllLastWins(attrs', pairs[1..], i - 1);
    }
  }

  /** Every octet string of the pairs fits an 8-bit literal. */
  predicate ShortPairs(pairs: seq<(bytes, bytes)>)
  {
    forall i :: 0 <= i < |pairs| ==> |pairs[i].0| < 0x100 && |pairs[i].1| < 0x100
  }

  /** The pairs written as literal key, literal value, one after the other. */
  function LiteralPairs(pairs: seq<(bytes, bytes)>): (r: bytes)
    requires ShortPairs(pairs)
    ensures |r| >= 4 * |pairs|
    ensures pairs == [] <==> r == []
  {
    if pairs == [] then []
    else Literal(pairs[0].0) + Literal(pairs[0].1) + LiteralPairs(pairs[1..])
  }

  /** A piece of a piece of the stream is a piece of the stream. */
  lemma SliceOfSlice(s: bytes, p: nat, n: nat, i: nat, j: nat)
    requires p + n <= |s| && i <= j <= n
    ensures s[p..p + n][i..j] == s[p + i..p + j]
  {
    var u := s[p..p + n][i..j];
    var w := s[p + i..p + j];
    assert forall k :: 0 <= k < |u| ==> u[k] == w[k];
  }

  /** A stretch of the stream made of three pieces holds each piece in turn. */
  lemma ThreePieces(s: bytes, p: nat, a: bytes, b: bytes, c: bytes)
    requires p + |a| + |b| + |c| <= |s| && s[p..p + |a| + |b| + |c|] == a + b + c
    ensures s[p..p + |a|] == a
    ensures s[p + |a|..p + |a| + |b|] == b
    ensures s[p + |a| + |b|..p + |a| + |b| + |c|] == c
  {
    var n := |a| + |b| + |c|;
    SliceOfSlice(s, p, n, 0, |a|);
    SliceOfSlice(s, p, n, |a|, |a| + |b|);
    SliceOfSlice(s, p, n, |a| + |b|, n);
    assert (a + b + c)[..|a|] == a;
    assert (a + b + c)[|a|..|a| + |b|] == b;
    assert (a + b + c)[|a| + |b|..] == c;
  }

  /** Literal pairs are read back into the map, in order, with no fatal read. */
  lemma {:induction false} AttributesRoundTrip(d: Dictionary, s: bytes, p: nat, pairs: seq<(bytes, bytes)>, attrs: Attributes)
    requires ValidDictionary(d) && ShortPairs(pairs)
    requires p + |LiteralPairs(pairs)| <= |s| && s[p..p + |LiteralPairs(pairs)|] == LiteralPairs(pairs)
    ensures ReadAttributes(d, s, p, |pairs|, attrs) == AttrRead(InsertAll(attrs, pairs), p + |LiteralPairs(pairs)|, false)
    decreases |pairs|
  {
    hide ReadString, ReadStringToken, Text, Literal, LiteralPairs, InsertAll, ReadAttributes, ShortPairs, Unpack, ReadPacked;
    if pairs != [] {
      var k, v, tail := pairs[0].0, pairs[0].1, pairs[1..];
      var q := p + |k| + |v| + 4;
      FirstPair(attrs, pairs);
      FirstPairSlices(s, p, pairs);
      assert ShortPairs(tail) && q + |LiteralPairs(tail)| <= |s| && s[q..q + |LiteralPairs(tail)|] == LiteralPairs(tail);
      AttributesRoundTrip(d, s, q, tail, attrs[Text(k) := Text(v)]);
      FirstPairRead(d, s, p, pairs, attrs);
    } else {
      NoPairs(d, s, p, attrs);
    }
  }

  /** The first pair read, given that the pairs after it read back. */
  lemma FirstPairRead(d: Dictionary, s: bytes, p: nat, pairs: seq<(bytes, bytes)>, attrs: Attributes)
    requires ValidDictionary(d) && ShortPairs(pairs) && pairs != []
    requires p + |LiteralPairs(pairs)| <= |s| && s[p..p + |LiteralPairs(pairs)|] == LiteralPairs(pairs)
    requires var k, v := pairs[0].0, pairs[0].1;
             var q := p + |k| + |v| + 4;
             ShortPairs(pairs[1..]) && q + |LiteralPairs(pairs[1..])| <= |s| &&
             ReadAttributes(d, s, q, |pairs| - 1, attrs[Text(k) := Text(v)])
               == AttrRead(InsertAll(attrs[Text(k) := Text(v)], pairs[1..]), q + |LiteralPairs(pairs[1..])|, false)
    ensures ReadAttributes(d, s, p, |pairs|, attrs) == AttrRead(InsertAll(attrs, pairs), p + |LiteralPairs(pairs)|, false)
  {
    hide ReadString, ReadStringToken, Text, Literal, LiteralPairs, InsertAll, ReadAttributes;
    var k, v, tail := pairs[0].0, pairs[0].1, pairs[1..];
    assert |k| < 0x100 && |v| < 0x100;
    hide ShortPairs;
    var attrs' := attrs[Text(k) := Text(v)];
    var q := p + |k| + |v| + 4;
    var rest := ReadAttributes(d, s, q, |pairs| - 1, attrs');
    assert rest == AttrRead(InsertAll(attrs', tail), q + |LiteralPairs(tail)|, false);
    FirstPairSlices(s, p, pairs);
    assert q + |LiteralPairs(tail)| == p + |LiteralPairs(pairs)|;
    LiteralPairRead(d, s, p, k, v, |pairs|, attrs);
    assert ReadAttributes(d, s, p, |pairs|, attrs) == AttrRead(rest.attributes, rest.pos, rest.fatal);
    FirstPair(attrs, pairs);
    assert InsertAll(attrs, pairs) == InsertAll(attrs', tail);
  }

  /** A literal key followed by a literal value is read and inserted, and reading goes on after them. */
  lemma LiteralPairRead(d: Dictionary, s: bytes, p: nat, k: bytes, v: bytes, count: nat, attrs: Attributes)
    requires ValidDictionary(d) && |k| < 0x100 && |v| < 0x100 && count > 0
    requires p + |k| + |v| + 4 <= |s| && s[p..p + |k| + 2] == Literal(k) && s[p + |k| + 2..p + |k| + |v| + 4] == Literal(v)
    ensures var rest := ReadAttributes(d, s, p + |k| + |v| + 4, count - 1, attrs[Text(k) := Text(v)]);
            ReadAttributes(d, s, p, count, attrs) == AttrRead(rest.attributes, rest.pos, rest.fatal)
  {
    hide ReadString, ReadStringToken, Text, Literal, ReadAttributes;
    ReadLiteral(d, s, p, k);
    ReadLiteral(d, s, p + |k| + 2, v);
    PairRead(d, s, p, count, attrs);
  }

  /** Where the first pair's key, its value and the remaining pairs sit in the stream. */
  lemma FirstPairSlices(s: bytes, p: nat, pairs: seq<(bytes, bytes)>)
    requires ShortPairs(pairs) && pairs != []
    requires p + |LiteralPairs(pairs)| <= |s| && s[p..p + |LiteralPairs(pairs)|] == LiteralPairs(pairs)
    ensures var k, v := pairs[0].0, pairs[0].1;
            var q := p + |k| + |v| + 4;
            q + |LiteralPairs(pairs[1..])| == p + |LiteralPairs(pairs)| &&
            s[p..p + |k| + 2] == Literal(k) &&
            s[p + |k| + 2..q] == Literal(v) &&
            s[q..q + |LiteralPairs(pairs[1..])|] == LiteralPairs(pairs[1..])
  {
    hide Literal, LiteralPairs, InsertAll, Text;
    FirstPair(map[], pairs);
    ThreePieces(s, p, Literal(pairs[0].0), Literal(pairs[0].1), LiteralPairs(pairs[1..]));
  }

  /** The first pair of a non-empty sequence, as written and as inserted. */
  lemma FirstPair(attrs: Attributes, pairs: seq<(bytes, bytes)>)
    requires ShortPairs(pairs) && pairs != []
    ensures ShortPairs(pairs[1..])
    ensures LiteralPairs(pairs) == Literal(pairs[0].0) + Literal(pairs[0].1) + LiteralPairs(pairs[1..])
    ensures InsertAll(attrs, pairs) == InsertAll(attrs[Text(pairs[0].0) := Text(pairs[0].1)], pairs[1..])
  {
    assert forall i :: 0 <= i < |pairs[1..]| ==> pairs[1..][i] == pairs[i + 1];
  }

  /** No pairs: nothing read, nothing inserted. */
  lemma NoPairs(d: Dictionary, s: bytes, p: nat, attrs: Attributes)
    requires p <= |s|
    ensures ReadAttributes(d, s, p, 0, attrs) == AttrRead(InsertAll(attrs, []), p + |LiteralPairs([])|, false)
  {}

  // ---------------------------------------------------------------------
  // The shape of a node, by the parity of its list size.
  // ---------------------------------------------------------------------

  /** The octets at p announce a list of `size` entries, and q, where the tag token sits, is inside the stream. */
  predicate ListSizeAt(s: bytes, p: nat, size: int, q: nat)
  {
    p < |s| && ReadListSize(s, p + 1, s[p] as nat) == Read(true, size, q, false) && q < |s|
  }

  /**
   * An odd list size 2n+1: the tag and n attributes, and nothing after
   * them. The node decodes whenever its tag does; the attributes never
   * make it fail. Children and payload of `node` are left as they were.
   */
  lemma OddSizeNode(d: Dictionary, s: bytes, p: nat, node: Node, size: int, q: nat)
    requires ListSizeAt(s, p, size, q) && size > 0 && size % 2 == 1
    ensures var tag := ReadStringToken(d, s, q + 1, s[q] as nat);
            var attrs := ReadAttributes(d, s, tag.pos, size / 2, map[]);
            var r := NextTreeInternal(d, s, p, node);
            r.ok == tag.ok &&
            (tag.ok ==> r == TreeRead(true, node.(tag := Text(tag.value), attributes := attrs.attributes), attrs.pos, tag.fatal || attrs.fatal))
  {
    hide ReadStringToken, ReadAttributes, ReadList, ReadListSize, ReadChildren, Text, ReadString, ReadInt8, AttribCount;
    var b, t := ReadInt8(s, p), ReadInt8(s, q);
    assert b.ok && b.value == s[p] as nat && b.pos == p + 1;
    assert t.ok && t.value == s[q] as nat && t.pos == q + 1;
    var tag := ReadStringToken(d, s, q + 1, s[q] as nat);
    var r := NextTreeInternal(d, s, p, node);
    if tag.ok {
      assert AttribCount(size) == size / 2;
      var attrs := ReadAttributes(d, s, tag.pos, size / 2, map[]);
      assert r == TreeRead(true, node.(tag := Text(tag.value), attributes := attrs.attributes), attrs.pos, tag.fatal || attrs.fatal);
    } else {
      assert r == TreeRead(false, node, tag.pos, tag.fatal);
    }
  }

  /**
   * An even list size 2n+2 followed by a list token: the tag, n
   * attributes, then children, one per announced entry, after those of
   * `node`; the payload is left as it was.
   */
  lemma ListContentNode(d: Dictionary, s: bytes, p: nat, node: Node, size: int, q: nat)
    requires ListSizeAt(s, p, size, q) && size >= 0 && size % 2 == 0
    ensures var tag := ReadStringToken(d, s, q + 1, s[q] as nat);
            var attrs := ReadAttributes(d, s, tag.pos, if size == 0 then 0 else size / 2 - 1, map[]);
            var node1 := node.(tag := Text(tag.value), attributes := attrs.attributes);
            var r := NextTreeInternal(d, s, p, node);
            tag.ok && attrs.pos < |s| && IsListTag(s[attrs.pos] as nat) ==>
              var n := ReadListSize(s, attrs.pos + 1, s[attrs.pos] as nat);
              r.ok == n.ok && r.node.(children := node.children) == node1 &&
              (n.ok ==> |r.node.children| == |node.children| + (if n.value < 0 then 0 else n.value) &&
                        r.node.children[..|node.children|] == node.children) &&
              (!n.ok ==> r.node == node1)
  {
    hide ReadStringToken, ReadAttributes, ReadListSize, ReadChildren, Text, ReadString;
    var b, t := ReadInt8(s, p), ReadInt8(s, q);
    assert b.ok && b.value == s[p] as nat && b.pos == p + 1;
    assert t.ok && t.value == s[q] as nat && t.pos == q + 1;
    var tag := ReadStringToken(d, s, q + 1, s[q] as nat);
    var count := if size == 0 then 0 else size / 2 - 1;
    assert (if AttribCount(size) < 0 then 0 else AttribCount(size)) == count;
    var attrs := ReadAttributes(d, s, tag.pos, count, map[]);
    var node1 := node.(tag := Text(tag.value), attributes := attrs.attributes);
    if tag.ok && attrs.pos < |s| && IsListTag(s[attrs.pos] as nat) {
      var c := ReadInt8(s, attrs.pos);
      assert c.ok && c.value == s[attrs.pos] as nat && c.pos == attrs.pos + 1;
      var n := ReadListSize(s, attrs.pos + 1, s[attrs.pos] as nat);
      var list := ReadList(d, s, p, attrs.pos + 1, s[attrs.pos] as nat, node1);
      var r := NextTreeInternal(d, s, p, node);
      assert r.ok == list.ok && r.node == list.node;
      if n.ok {
        var k := if n.value < 0 then 0 else n.value;
        assert list == ReadChildren(d, s, p, n.pos, k, node1);
        ChildrenAdded(d, s, p, n.pos, k, node1);
      }
    }
  }

  /**
   * An even list size 2n+2 with nothing after the tag and the n
   * attributes: the octet announcing the content is missing, and the
   * node fails with its tag and attributes read.
   */
  lemma MissingContentNode(d: Dictionary, s: bytes, p: nat, node: Node, size: int, q: nat)
    requires ListSizeAt(s, p, size, q) && size >= 0 && size % 2 == 0
    ensures var tag := ReadStringToken(d, s, q + 1, s[q] as nat);
            var attrs := ReadAttributes(d, s, tag.pos, if size == 0 then 0 else size / 2 - 1, map[]);
            var r := NextTreeInternal(d, s, p, node);
            tag.ok && attrs.pos == |s| ==>
              !r.ok && r.node == node.(tag := Text(tag.value), attributes := attrs.attributes)
  {
    hide ReadStringToken, ReadAttributes, ReadList, ReadListSize, ReadChildren, Text, ReadString;
    assert (if AttribCount(size) < 0 then 0 else AttribCount(size)) == (if size == 0 then 0 else size / 2 - 1);
  }

  /**
   * An even list size 2n+2 followed by any token other than a list
   * token: the tag, n attributes and a payload string. The node decodes
   * exactly when the payload does.
   */
  lemma PayloadNode(d: Dictionary, s: bytes, p: nat, node: Node, size: int, q: nat)
    requires ListSizeAt(s, p, size, q) && size >= 0 && size % 2 == 0
    ensures var tag := ReadStringToken(d, s, q + 1, s[q] as nat);
            var attrs := ReadAttributes(d, s, tag.pos, if size == 0 then 0 else size / 2 - 1, map[]);
            var node1 := node.(tag := Text(tag.value), attributes := attrs.attributes);
            var r := NextTreeInternal(d, s, p, node);
            tag.ok && attrs.pos < |s| && !IsListTag(s[attrs.pos] as nat) ==>
              var data := ReadStringToken(d, s, attrs.pos + 1, s[attrs.pos] as nat);
              r.ok == data.ok && r.pos == data.pos && r.fatal == (tag.fatal || attrs.fatal || data.fatal) &&
              r.node == (if data.ok then node1.(data := data.value) else node1)
  {
    hide ReadStringToken, ReadAttributes, ReadList, ReadListSize, ReadChildren, Text, ReadString, ReadInt8;
    var count := if size == 0 then 0 else size / 2 - 1;
    assert (if AttribCount(size) < 0 then 0 else AttribCount(size)) == count;
    var b, t := ReadInt8(s, p), ReadInt8(s, q);
    assert b.ok && b.value == s[p] as nat && b.pos == p + 1;
    assert t.ok && t.value == s[q] as nat && t.pos == q + 1;
    var tag := ReadStringToken(d, s, q + 1, s[q] as nat);
    var attrs := ReadAttributes(d, s, tag.pos, count, map[]);
    if tag.ok && attrs.pos < |s| {
      var c := ReadInt8(s, attrs.pos);
      assert c.ok && c.value == s[attrs.pos] as nat && c.pos == attrs.pos + 1;
    }
  }


  /** A string read at a cursor inside the stream is read from the token octet there. */
  lemma ReadStringAt(d: Dictionary, s: bytes, p: nat)
    requires p < |s|
    ensures ReadString(d, s, p) == ReadStringToken(d, s, p + 1, s[p] as nat)
  {}

  /** The list sizes the encoder writes for n pairs, with and without content. */
  lemma SizeParity(n: nat)
    ensures (1 + 2 * n) % 2 == 1 && (1 + 2 * n) / 2 == n
    ensures (2 + 2 * n) % 2 == 0 && (2 + 2 * n) / 2 - 1 == n
  {}

  /** The length octet of a short list, as the encoder writes it. */
  function SizeOctet(size: nat): (b: byte)
    requires size < 0x100
    ensures b as int == size
  {
    ByteOfInt(size);
    size as byte
  }

  /** Token 248 followed by the length octet of `size` announces a list of `size` entries. */
  lemma EightBitSize(s: bytes, p: nat, size: nat)
    requires size < 0x100 && p + 1 < |s| && s[p] == ListEight as byte && s[p + 1] == SizeOctet(size)
    ensures ReadListSize(s, p + 1, s[p] as nat) == Read(true, size, p + 2, false)
  {}

  /** The opening of an element: 8-bit list size, literal tag, literal pairs. */
  function Opening(tag: bytes, pairs: seq<(bytes, bytes)>, content: bool): (r: bytes)
    requires |tag| < 0x100 && ShortPairs(pairs) && |pairs| < 0x7F
    ensures |r| == 4 + |tag| + |LiteralPairs(pairs)|
  {
    [ListEight as byte, SizeOctet(1 + 2 * |pairs| + (if content then 1 else 0))] + Literal(tag) + LiteralPairs(pairs)
  }

  /** The opening of an element sits in the stream at p. */
  predicate OpeningAt(s: bytes, p: nat, tag: bytes, pairs: seq<(bytes, bytes)>, content: bool)
  {
    |tag| < 0x100 && ShortPairs(pairs) && |pairs| < 0x7F &&
    p + |Opening(tag, pairs, content)| <= |s| && s[p..p + |Opening(tag, pairs, content)|] == Opening(tag, pairs, content)
  }

  /** The octets of an opening: token 248, the size octet, the literal tag, then the literal pairs. */
  lemma OpeningOctets(s: bytes, p: nat, tag: bytes, pairs: seq<(bytes, bytes)>, content: bool)
    requires OpeningAt(s, p, tag, pairs, content)
    ensures var a := p + 4 + |tag|;
            a + |LiteralPairs(pairs)| <= |s| &&
            s[p] == ListEight as byte && s[p + 1] == SizeOctet(1 + 2 * |pairs| + (if content then 1 else 0)) &&
            s[p + 2..a] == Literal(tag) && s[a..a + |LiteralPairs(pairs)|] == LiteralPairs(pairs)
  {
    hide Literal, LiteralPairs, SizeOctet, ShortPairs;
    var head: bytes := [ListEight as byte, SizeOctet(1 + 2 * |pairs| + (if content then 1 else 0))];
    var lt, lp := Literal(tag), LiteralPairs(pairs);
    var o := Opening(tag, pairs, content);
    assert o == head + lt + lp;
    assert p + |o| <= |s| && s[p..p + |o|] == o;
    hide Opening, OpeningAt;
    assert |lt| == |tag| + 2;
    HeadAndTwoPieces(s, p, head, lt, lp);
  }

  /** Splits the window at p into a two-octet head and two pieces after it. */
  lemma HeadAndTwoPieces(s: bytes, p: nat, head: bytes, b: bytes, c: bytes)
    requires |head| == 2 && p + 2 + |b| + |c| <= |s| && s[p..p + 2 + |b| + |c|] == head + b + c
    ensures s[p] == head[0] && s[p + 1] == head[1]
    ensures s[p + 2..p + 2 + |b|] == b && s[p + 2 + |b|..p + 2 + |b| + |c|] == c
  {
    var w := s[p..p + 2 + |b| + |c|];
    assert w[0] == s[p] && w[1] == s[p + 1];
    ThreePieces(s, p, head, b, c);
  }

  /** The opening reads back as its list size and its tag, and leaves the cursor at the pairs. */
  lemma OpeningRead(d: Dictionary, s: bytes, p: nat, tag: bytes, pairs: seq<(bytes, bytes)>, content: bool)
    requires ValidDictionary(d) && OpeningAt(s, p, tag, pairs, content)
    ensures ListSizeAt(s, p, 1 + 2 * |pairs| + (if content then 1 else 0), p + 2)
    ensures ReadStringToken(d, s, p + 2 + 1, s[p + 2] as nat) == Read(true, tag, p + 4 + |tag|, false)
  {
    hide ReadStringToken, ReadString, Literal, LiteralPairs, Opening, SizeOctet, OpeningAt, ReadListSize, ShortPairs;
    OpeningOctets(s, p, tag, pairs, content);
    EightBitSize(s, p, 1 + 2 * |pairs| + (if content then 1 else 0));
    assert s[p + 2..p + 2 + |tag| + 2] == Literal(tag);
    ReadLiteral(d, s, p + 2, tag);
    ReadStringAt(d, s, p + 2);
    assert ReadStringToken(d, s, p + 2 + 1, s[p + 2] as nat) == Read(true, tag, p + 2 + |tag| + 2, false);
  }

  /** The opening of an element reads back as its list size, its tag and its attributes. */
  lemma OpeningPieces(d: Dictionary, s: bytes, p: nat, tag: bytes, pairs: seq<(bytes, bytes)>, content: bool)
    requires ValidDictionary(d) && OpeningAt(s, p, tag, pairs, content)
    ensures ListSizeAt(s, p, 1 + 2 * |pairs| + (if content then 1 else 0), p + 2)
    ensures ReadStringToken(d, s, p + 2 + 1, s[p + 2] as nat) == Read(true, tag, p + 4 + |tag|, false)
    ensures ReadAttributes(d, s, p + 4 + |tag|, |pairs|, map[])
         == AttrRead(InsertAll(map[], pairs), p + 4 + |tag| + |LiteralPairs(pairs)|, false)
  {
    hide ReadStringToken, ReadString, Literal, LiteralPairs, SizeOctet, ReadListSize, ReadAttributes, InsertAll, Text;
    assert ShortPairs(pairs);
    hide Opening, OpeningAt, ShortPairs;
    OpeningRead(d, s, p, tag, pairs, content);
    OpeningOctets(s, p, tag, pairs, content);
    AttributesRoundTrip(d, s, p + 4 + |tag|, pairs, map[]);
  }

  /** An element without content is read back: its tag and its attributes. */
  lemma ElementRoundTrip(d: Dictionary, s: bytes, p: nat, tag: bytes, pairs: seq<(bytes, bytes)>, node: Node)
    requires ValidDictionary(d) && OpeningAt(s, p, tag, pairs, false)
    ensures NextTreeInternal(d, s, p, node)
         == TreeRead(true, node.(tag := Text(tag), attributes := InsertAll(map[], pairs)), p + 4 + |tag| + |LiteralPairs(pairs)|, false)
  {
    hide ReadStringToken, ReadString, Literal, LiteralPairs, Opening, SizeOctet, ReadListSize, ReadAttributes, InsertAll, NextTreeInternal, Text;
    assert ShortPairs(pairs);
    OpeningPieces(d, s, p, tag, pairs, false);
    hide OpeningAt, ShortPairs;
    SizeParity(|pairs|);
    OddSizeNode(d, s, p, node, 1 + 2 * |pairs|, p + 2);
  }

  /** An element with a literal payload is read back: tag, attributes and payload. */
  lemma PayloadRoundTrip(d: Dictionary, s: bytes, p: nat, tag: bytes, pairs: seq<(bytes, bytes)>, data: bytes, node: Node)
    requires ValidDictionary(d) && OpeningAt(s, p, tag, pairs, true) && |data| < 0x100
    requires var e := p + 4 + |tag| + |LiteralPairs(pairs)|; e + |data| + 2 <= |s| && s[e..e + |data| + 2] == Literal(data)
    ensures NextTreeInternal(d, s, p, node)
         == TreeRead(true, node.(tag := Text(tag), attributes := InsertAll(map[], pairs), data := data),
                     p + 4 + |tag| + |LiteralPairs(pairs)| + |data| + 2, false)
  {
    hide ReadStringToken, ReadString, Literal, LiteralPairs, Opening, SizeOctet, ReadListSize, ReadAttributes, InsertAll, NextTreeInternal, Text;
    assert ShortPairs(pairs);
    var e := p + 4 + |tag| + |LiteralPairs(pairs)|;
    OpeningPieces(d, s, p, tag, pairs, true);
    hide OpeningAt, ShortPairs;
    var l, w := Literal(data), s[e..e + |data| + 2];
    assert s[e] == w[0] == l[0];
    assert !IsListTag(s[e] as nat);
    ReadLiteral(d, s, e, data);
    ReadStringAt(d, s, e);
    assert ReadStringToken(d, s, e + 1, s[e] as nat) == Read(true, data, e + |data| + 2, false);
    SizeParity(|pairs|);
    var t := ReadStringToken(d, s, p + 2 + 1, s[p + 2] as nat);
    assert t == Read(true, tag, p + 4 + |tag|, false);
    var size := 2 + 2 * |pairs|;
    assert (if size == 0 then 0 else size / 2 - 1) == |pairs|;
    assert ReadAttributes(d, s, t.pos, |pairs|, map[]) == AttrRead(InsertAll(map[], pairs), e, false);
    PayloadNode(d, s, p, node, 2 + 2 * |pairs|, p + 2);
  }
}
