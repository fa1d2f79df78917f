// The stanza reader: it takes one length-prefixed frame off the transport,
// deciphers it when the header's encrypted flag is set, and decodes the
// node tree from the result with a cursor. Every method is proved to
// compute what the functions of TreeDecoding say.
module TreeReader {
  import opened Bytes
  import opened ProtocolTree
  import opened TreeDecoding
  import opened KeyStreams

  /** The 24-bit big-endian frame header at the front of the transport input. */
  function FrameHeader(input: bytes): nat
    requires |input| >= 3
  {
    Int24(input[0] as nat, input[1] as nat, input[2] as nat)
  }

  /** Bit 3 of the header flags: the frame is ciphered and carries a tag. */
  predicate Encrypted(flags: nat)
    ensures Encrypted(flags) <==> flags % 0x10 >= 8
  {
    (flags / 8) % 2 == 1
  }

  /**
   * A whole frame has arrived: the header and the length it announces. An
   * empty frame also waits until at least one more octet is available,
   * because the raw read blocks while nothing is available.
   */
  predicate FrameAvailable(input: bytes)
    ensures FrameAvailable(input) ==> |input| >= 4 && 3 + HeaderLength(FrameHeader(input)) <= |input|
  {
    |input| >= 3 &&
    var length := HeaderLength(FrameHeader(input));
    3 + length <= |input| && (length == 0 ==> 3 < |input|)
  }

  /** The payload of the frame at the front of the input. */
  function Payload(input: bytes): (r: bytes)
    requires FrameAvailable(input)
    ensures |r| == HeaderLength(FrameHeader(input))
  {
    input[3..3 + HeaderLength(FrameHeader(input))]
  }

  /** What remains of the input after the first frame. */
  function AfterFrame(input: bytes): (r: bytes)
    requires FrameAvailable(input)
    ensures |r| == |input| - 3 - HeaderLength(FrameHeader(input))
  {
    input[3 + HeaderLength(FrameHeader(input))..]
  }

  /** The frame is whole frames back to back (the only input a drain loop can finish). */
  predicate WholeFrames(input: bytes)
    decreases |input|
  {
    |input| == 0 || (FrameAvailable(input) && WholeFrames(AfterFrame(input)))
  }

  class BinTreeNodeReader {
    const dict: Dictionary
    /** Octets the transport has received and the reader has not taken yet. */
    var input: bytes
    var rawBuffer: bytes
    var decodedBuffer: bytes
    /** What the decoded stream reads: the decoded buffer while open, nothing while closed. */
    var stream: bytes
    /** The decoded stream's cursor. */
    var pos: nat
    var inputKey: KeyStream?
    /** Set by harakiri: the socket was told to disconnect and `socketBroken` emitted. */
    var broken: bool

    ghost predicate Valid()
      reads this
    {
      pos <= |stream|
    }

    constructor (dict: Dictionary, input: bytes)
      ensures Valid() && this.dict == dict && this.input == input
      ensures rawBuffer == [] && decodedBuffer == [] && stream == [] && pos == 0
      ensures inputKey == null && !broken
    {
      this.dict := dict;
      this.input := input;
      rawBuffer, decodedBuffer, stream, pos := [], [], [], 0;
      inputKey := null;
      broken := false;
    }

    /** reset: the key is forgotten, the stream closed and both buffers cleared. */
    method Reset()
      modifies this
      ensures Valid() && input == old(input)
      ensures rawBuffer == [] && decodedBuffer == [] && stream == [] && pos == 0
      ensures inputKey == null && !broken
    {
      inputKey := null;
      stream, pos := [], 0;
      rawBuffer, decodedBuffer := [], [];
      broken := false;
    }

    method SetInputKey(key: KeyStream?)
      modifies this`inputKey
      ensures inputKey == key
    {
      inputKey := key;
    }

    method Harakiri()
      modifies this`broken
      ensures broken
    {
      broken := true;
    }

    /** getOneToplevelStreamSize: decoded length plus the header and tag sizes. */
    function GetOneToplevelStreamSize(): (r: int)
      reads this
      ensures r - 7 == |decodedBuffer|
    {
      |decodedBuffer| + 3 + 4
    }

    // -------------------------------------------------------------------
    // Reads on the decoded stream.
    // -------------------------------------------------------------------

    method ReadInt8() returns (ok: bool, b: nat)
      requires Valid()
      modifies this`pos
      ensures Valid()
      ensures Read(ok, b, pos, false) == TreeDecoding.ReadInt8(stream, old(pos))
    {
      if pos < |stream| {
        b := stream[pos] as nat;
        pos := pos + 1;
        ok := true;
      } else {
        ok, b := false, 0;
      }
    }

    method ReadInt16() returns (ok: bool, v: int)
      requires Valid()
      modifies this`pos
      ensures Valid()
      ensures Read(ok, v, pos, false) == TreeDecoding.ReadInt16(stream, old(pos))
    {
      var ok1, r1 := ReadInt8();
      if !ok1 {
        return false, 0;
      }
      var ok2, r2 := ReadInt8();
      if !ok2 {
        return false, 0;
      }
      return true, Signed16(r1, r2);
    }

    method ReadInt24() returns (ok: bool, v: nat)
      requires Valid()
      modifies this`pos
      ensures Valid()
      ensures Read(ok, v, pos, false) == TreeDecoding.ReadInt24(stream, old(pos))
    {
      var ok1, r1 := ReadInt8();
      if !ok1 {
        return false, 0;
      }
      var ok2, r2 := ReadInt8();
      if !ok2 {
        return false, 0;
      }
      var ok3, r3 := ReadInt8();
      if !ok3 {
        return false, 0;
      }
      return true, Int24(r1, r2, r3);
    }

    /** fillArray: QIODevice::read of up to n octets. */
    method FillArray(n: nat) returns (ok: bool, data: bytes)
      requires Valid()
      modifies this`pos
      ensures Valid()
      ensures Read(ok, data, pos, false) == TreeDecoding.FillArray(stream, old(pos), n)
    {
      var m := if pos + n <= |stream| then n else |stream| - pos;
      data := stream[pos..pos + m];
      pos := pos + m;
      ok := m == n;
    }

    method ReadListSize(token: nat) returns (ok: bool, size: int)
      requires Valid()
      modifies this`pos, this`broken
      ensures Valid()
      ensures var r := TreeDecoding.ReadListSize(stream, old(pos), token);
              ok == r.ok && size == r.value && pos == r.pos && broken == (old(broken) || r.fatal)
    {
      size := -1;
      if token == ListEmpty {
        return true, 0;
      } else if token == ListEight {
        var got, b := ReadInt8();
        if !got {
          return false, -1;
        }
        return true, b;
      } else if token == ListSixteen {
        var got, b := ReadInt16();
        if !got {
          return false, -1;
        }
        return true, b;
      }
      Harakiri();
      return false, -1;
    }

    method GetToken(token: int) returns (ok: bool, s: bytes)
      requires Valid()
      modifies this`pos, this`broken
      ensures Valid()
      ensures var r := TreeDecoding.GetToken(dict, stream, old(pos), token);
              ok == r.ok && s == r.value && pos == r.pos && broken == (old(broken) || r.fatal)
    {
      var first := dict.lookup(0, token);
      if first.text != "" {
        return true, Utf8(first.text);
      }
      var got, ext := ReadInt8();
      if !got {
        return false, [];
      }
      var second := dict.lookup(first.subdict, ext);
      if second.text != "" {
        return true, Utf8(second.text);
      }
      Harakiri();
      return false, [];
    }

    /** readString(s): the token octet, then the string it introduces. */
    method ReadString() returns (ok: bool, s: bytes)
      requires Valid()
      modifies this`pos, this`broken
      ensures Valid()
      ensures var r := TreeDecoding.ReadString(dict, stream, old(pos));
              ok == r.ok && s == r.value && pos == r.pos && broken == (old(broken) || r.fatal)
      decreases |stream| - pos, 2
    {
      var got, token := ReadInt8();
      if !got {
        return false, [];
      }
      ok, s := ReadStringToken(token);
    }

    /** readString(token, s). */
    method ReadStringToken(token: nat) returns (ok: bool, s: bytes)
      requires Valid()
      modifies this`pos, this`broken
      ensures Valid()
      ensures var r := TreeDecoding.ReadStringToken(dict, stream, old(pos), token);
              ok == r.ok && s == r.value && pos == r.pos && broken == (old(broken) || r.fatal)
      decreases |stream| - pos + 1, 1
    {
      hide TreeDecoding.ReadString, TreeDecoding.GetToken, TreeDecoding.FillArray, TreeDecoding.ReadInt8, TreeDecoding.ReadInt24;
      if 2 < token < dict.primarySize {
        ok, s := GetToken(token);
        return;
      }
      if token == ListEmpty {
        return false, [];
      } else if token == BinaryEight {
        var got, n := ReadInt8();
        if !got {
          return false, [];
        }
        ok, s := FillArray(n);
      } else if token == BinaryTwentyFour {
        var got, n := ReadInt24();
        if !got {
          return false, [];
        }
        ok, s := FillArray(n);
      } else if token == TokenEight {
        var got, t := ReadInt8();
        if !got {
          return false, [];
        }
        ok, s := GetToken(dict.primarySize + t);
      } else if token == JidPair {
        ghost var p0, b0 := pos, broken;
        var usr, user := ReadString();
        ghost var b1 := broken;
        var srv, server := ReadString();
        assert b1 == (b0 || TreeDecoding.ReadString(dict, stream, p0).fatal);
        if usr && srv {
          return true, user + [0x40] + server;
        }
        if srv {
          return true, server;
        }
        Harakiri();
        return false, [];
      } else if token == HexEight || token == NibbleEight {
        var got, nbyte := ReadInt8();
        if !got {
          return false, [];
        }
        var size := PackedLength(nbyte);
        var res;
        got, res := FillArray(size);
        if !got {
          return false, [];
        }
        return true, Unpack(nbyte, res);
      } else {
        Harakiri();
        return false, [];
      }
    }

    /**
     * readAttributes: count key/value pairs; a pair that does not decode is
     * skipped and the loop goes on, so the call always succeeds.
     */
    method ReadAttributes(count: int) returns (attrs: Attributes)
      requires Valid()
      modifies this`pos, this`broken
      ensures Valid()
      ensures var r := TreeDecoding.ReadAttributes(dict, stream, old(pos), if count < 0 then 0 else count, map[]);
              attrs == r.attributes && pos == r.pos && broken == (old(broken) || r.fatal)
    {
      ghost var n: nat := if count < 0 then 0 else count;
      ghost var whole := TreeDecoding.ReadAttributes(dict, stream, pos, n, map[]);
      ghost var fatal := false;
      attrs := map[];
      var i := 0;
      while i < count
        invariant 0 <= i <= n && Valid()
        invariant count >= 0 ==> i <= count
        invariant var rest := TreeDecoding.ReadAttributes(dict, stream, pos, n - i, attrs);
                  rest.attributes == whole.attributes && rest.pos == whole.pos
                  && whole.fatal == (fatal || rest.fatal)
        invariant broken == (old(broken) || fatal)
      {
        ghost var p := pos;
        var okKey, key := ReadString();
        ghost var stepFatal := TreeDecoding.ReadString(dict, stream, p).fatal;
        var okValue, value := false, [];
        if okKey {
          ghost var q := pos;
          okValue, value := ReadString();
          stepFatal := stepFatal || TreeDecoding.ReadString(dict, stream, q).fatal;
        }
        if okKey && okValue {
          attrs := attrs[Text(key) := Text(value)];
        }
        fatal := fatal || stepFatal;
        i := i + 1;
      }
    }

    /**
     * nextTreeInternal: the node's list size, tag and attributes, then for
     * an even size either its children or its payload.
     */
    method NextTreeInternal(node: ProtocolTreeNode) returns (ok: bool)
      requires Valid()
      modifies this`pos, this`broken, node
      ensures Valid()
      ensures var r := TreeDecoding.NextTreeInternal(dict, stream, old(pos), old(node.Value()));
              ok == r.ok && node.Value() == r.node && pos == r.pos && broken == (old(broken) || r.fatal)
      decreases |stream| - pos, 1
    {
      hide TreeDecoding.ReadStringToken, TreeDecoding.ReadAttributes, TreeDecoding.ReadList,
           TreeDecoding.ReadChildren, TreeDecoding.ReadString, Text, Unpack;
      var start := pos;
      var got, b := ReadInt8();
      if !got {
        return false;
      }
      var size;
      got, size := ReadListSize(b);
      if !got {
        return false;
      }
      if size < 0 {
        return false;
      }
      got, b := ReadInt8();
      if !got {
        return false;
      }
      var tag;
      got, tag := ReadStringToken(b);
      if !got {
        return false;
      }
      var attribCount := AttribCount(size);
      var attribs := ReadAttributes(attribCount);
      node.SetTag(Text(tag));
      node.SetAttributes(attribs);
      if size % 2 == 1 {
        return true;
      }
      got, b := ReadInt8();
      if !got {
        return false;
      }
      if IsListTag(b) {
        ok := ReadList(b, node, start);
        return;
      }
      var data;
      got, data := ReadStringToken(b);
      if !got {
        return false;
      }
      node.SetData(data);
      return true;
    }

    /** readList: every announced child is added, whether or not it decoded. */
    method ReadList(token: nat, node: ProtocolTreeNode, ghost start: nat) returns (ok: bool)
      requires Valid() && start < pos
      modifies this`pos, this`broken, node
      ensures Valid()
      ensures var r := TreeDecoding.ReadList(dict, stream, start, old(pos), token, old(node.Value()));
              ok == r.ok && node.Value() == r.node && pos == r.pos && broken == (old(broken) || r.fatal)
      decreases |stream| - start, 0, 2
    {
      var got, size := ReadListSize(token);
      if !got {
        return false;
      }
      ReadChildren(size, node, start);
      return true;
    }

    /** readList's loop: size children read one after another, none when the size is negative. */
    method ReadChildren(size: int, node: ProtocolTreeNode, ghost start: nat)
      requires Valid() && start < pos
      modifies this`pos, this`broken, node
      ensures Valid()
      ensures var r := TreeDecoding.ReadChildren(dict, stream, start, old(pos), if size < 0 then 0 else size, old(node.Value()));
              node.Value() == r.node && pos == r.pos && broken == (old(broken) || r.fatal)
      decreases |stream| - start, 0, 1
    {
      hide TreeDecoding.NextTreeInternal;
      ghost var n: nat := if size < 0 then 0 else size;
      ghost var whole := TreeDecoding.ReadChildren(dict, stream, start, pos, n, node.Value());
      ghost var fatal := false;
      var i := 0;
      while i < size
        invariant Valid() && start < pos
        invariant 0 <= i <= n && (size >= 0 ==> i <= size)
        invariant var rest := TreeDecoding.ReadChildren(dict, stream, start, pos, n - i, node.Value());
                  rest.node == whole.node && rest.pos == whole.pos && whole.fatal == (fatal || rest.fatal)
        invariant broken == (old(broken) || fatal)
        decreases size - i
      {
        ghost var p := pos;
        var child := ReadChild(start);
        fatal := fatal || TreeDecoding.NextTreeInternal(dict, stream, p, Empty).fatal;
        node.AddChild(child);
        i := i + 1;
      }
    }

    /** One pass of readList's loop: a default node, filled in by nextTreeInternal. */
    method ReadChild(ghost start: nat) returns (child: Node)
      requires Valid() && start < pos
      modifies this`pos, this`broken
      ensures Valid()
      ensures var r := TreeDecoding.NextTreeInternal(dict, stream, old(pos), Empty);
              child == r.node && pos == r.pos && broken == (old(broken) || r.fatal)
      decreases |stream| - start, 0, 0
    {
      var holder := new ProtocolTreeNode();
      var _ := NextTreeInternal(holder);
      child := holder.Value();
    }

    // -------------------------------------------------------------------
    // Frames.
    // -------------------------------------------------------------------

    /**
     * decodeRawStream(flags, 0, length): an encrypted frame of at least four
     * octets is checked and deciphered by the input key, and the decoded
     * buffer is what is left without its tag; a plain frame is copied.
     */
    method DecodeRawStream(flags: nat, length: int) returns (ok: bool)
      requires |rawBuffer| == length
      requires Encrypted(flags) ==> inputKey != null
      modifies this`rawBuffer, this`decodedBuffer, this`broken, inputKey
      ensures !Encrypted(flags) ==> ok && decodedBuffer == old(rawBuffer) && rawBuffer == [] && broken == old(broken)
      ensures Encrypted(flags) && length < 4 ==>
                !ok && broken && decodedBuffer == old(decodedBuffer) && unchanged(inputKey)
      ensures Encrypted(flags) && length >= 4 ==>
                var key := inputKey;
                && ok == Accepts(key.sha1, key.macKey, old(key.seqNo), old(rawBuffer), 0)
                && key.seqNo == old(key.seqNo) + 1
                && key.pos == old(key.pos) + length - 4
                && (ok ==> decodedBuffer == Crypt(key.stream, old(key.pos), FrameBody(old(rawBuffer))) && rawBuffer == [])
                && (!ok ==> broken && decodedBuffer == old(decodedBuffer))
                && (ok ==> broken == old(broken))
    {
      if Encrypted(flags) {
        if length < 4 {
          Harakiri();
          return false;
        }
        var good, plain := inputKey.DecodeMessage(rawBuffer, 0, 4, length - 4);
        rawBuffer := plain;
        if !good {
          Harakiri();
          return false;
        }
        decodedBuffer := Right(rawBuffer, length - 4);
      } else {
        decodedBuffer := rawBuffer;
      }
      rawBuffer := [];
      return true;
    }

    /**
     * getOneToplevelStream: the header splits into four flag bits and a
     * 20-bit length, that many octets are taken from the transport, and the
     * decoded stream is reopened on the decoded buffer when they decode.
     */
    method GetOneToplevelStream() returns (ok: bool)
      requires FrameAvailable(input)
      requires Encrypted(HeaderFlags(FrameHeader(input))) ==> inputKey != null
      modifies this, inputKey
      ensures Valid() && inputKey == old(inputKey)
      ensures input == AfterFrame(old(input))
      ensures var flags := HeaderFlags(FrameHeader(old(input)));
              var payload := Payload(old(input));
              && (!Encrypted(flags) ==> ok && decodedBuffer == payload && broken == old(broken))
              && (Encrypted(flags) && |payload| < 4 ==> !ok && broken)
              && (Encrypted(flags) && |payload| >= 4 ==>
                    var key := inputKey;
                    && ok == Accepts(key.sha1, key.macKey, old(key.seqNo), payload, 0)
                    && key.seqNo == old(key.seqNo) + 1
                    && (ok ==> decodedBuffer == Crypt(key.stream, old(key.pos), FrameBody(payload)) && broken == old(broken))
                    && (!ok ==> broken))
      ensures ok ==> stream == decodedBuffer && pos == 0
      ensures !ok ==> stream == [] && pos == 0
    {
      var header := Int24(input[0] as nat, input[1] as nat, input[2] as nat);
      var flags := HeaderFlags(header);
      var size := HeaderLength(header);
      rawBuffer := input[3..3 + size];
      input := input[3 + size..];
      stream, pos := [], 0;
      ok := DecodeRawStream(flags, size);
      if ok {
        stream, pos := decodedBuffer, 0;
      }
    }

    /**
     * nextTree: one frame is taken off the transport; when it decodes, the
     * node gets the stanza size and is filled in from the decoded octets.
     */
    method NextTree(node: ProtocolTreeNode) returns (ok: bool)
      requires FrameAvailable(input)
      requires Encrypted(HeaderFlags(FrameHeader(input))) ==> inputKey != null
      modifies this, inputKey, node
      ensures Valid() && inputKey == old(inputKey)
      ensures input == AfterFrame(old(input))
      ensures var flags := HeaderFlags(FrameHeader(old(input)));
              var payload := Payload(old(input));
              && (!Encrypted(flags) ==> decodedBuffer == payload)
              && (Encrypted(flags) && |payload| < 4 ==> !ok && broken && node.Value() == old(node.Value()))
              && (Encrypted(flags) && |payload| >= 4 ==>
                    var key := inputKey;
                    && key.seqNo == old(key.seqNo) + 1
                    && (Accepts(key.sha1, key.macKey, old(key.seqNo), payload, 0) ==>
                          decodedBuffer == Crypt(key.stream, old(key.pos), FrameBody(payload)))
                    && (!Accepts(key.sha1, key.macKey, old(key.seqNo), payload, 0) ==>
                          !ok && broken && node.Value() == old(node.Value())))
      ensures (!Encrypted(HeaderFlags(FrameHeader(old(input))))
               || (|Payload(old(input))| >= 4 && Accepts(inputKey.sha1, inputKey.macKey, old(inputKey.seqNo), Payload(old(input)), 0))) ==>
              var r := TreeDecoding.NextTreeInternal(dict, decodedBuffer, 0, old(node.Value()).(size := |decodedBuffer| + 7));
              && ok == r.ok && node.Value() == r.node && stream == decodedBuffer && pos == r.pos
              && broken == (old(broken) || r.fatal)
    {
      hide *;
      var got := GetOneToplevelStream();
      if !got {
        return false;
      }
      node.SetSize(GetOneToplevelStreamSize());
      ok := NextTreeInternal(node);
    }
  }
}
