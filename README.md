# libwa-qt4 core in Dafny

This project models the core of libwa-qt4, a Qt 4 client library for a
binary XMPP-style messaging protocol, and proves properties of the model.
It covers five pieces.

- **The stanza reader** (`BinTreeNodeReader`). It works over an input octet sequence. It splits each frame header into four flag bits and a 20-bit length. It checks and deciphers ciphered frames with the incoming key stream. It then decodes the binary tree grammar: list sizes, dictionary tokens, 8- and 24-bit literals, JID pairs and packed digits.
- **The tree node** (`ProtocolTreeNode`). It holds a tag, attributes, a payload, children and a stanza size. It has mutators, getters and the `toString` rendering.
- **The frame cipher** (`KeyStream`). Frames are ciphered in place with a persistent keystream. A four-octet tag is taken from HMAC over the ciphertext and a big-endian sequence number. The four session keys come from the password and the nonce.
- **Key derivation.**
  - PBKDF2 as `QtRFC2898::deriveBytes` computes it (section 5.2 of RFC 2898).
  - HMAC as section 2 of RFC 2104 defines it, in two forms: the raw one in `HmacSha1` and the Base64 one in the Qt 4 helpers.
- **The connection state machine** (`WAConnectionPrivate`). It covers:
  - the request and message id counters;
  - the pending-reply table;
  - `read()`'s re-entrancy guard and its dispatch;
  - the reconnect policy;
  - the passive-login countdown;
  - the login and authentication stanzas, and the layout of the authentication blob.

The files and modules are:

- `wrappers.dfy`: `Option` and `Result`.
- `bytes.dfy` (`Bytes`): octets, big-endian counters, hex, Base64, UTF-8, Latin-1, numerals and `toInt`.
- `hmac.dfy` (`Hmac`): RFC 2104 HMAC and the `HmacSha1Key` class.
- `rfc2898.dfy` (`Rfc2898`): the PBKDF2 reference functions and the `deriveBytes` loops.
- `keystream.dfy` (`KeyStreams`): the frame functions and the `KeyStream` class.
- `protocoltreenode.dfy` (`ProtocolTree`): the `Node` value, the `ProtocolTreeNode` class, the order in which the child multi-map is iterated, and the rendering.
- `treedecoding.dfy` (`TreeDecoding`): the reader's grammar as functions over (octets, cursor).
- `bintreenodereader.dfy` (`TreeReader`): the `BinTreeNodeReader` class. Every one of its methods is proved equal to the matching `TreeDecoding` function.
- `orderedkeys.dfy` (`OrderedKeys`): the order in which a `QMap` returns the keys it was given.
- `connectionlogic.dfy` (`ConnectionLogic`): the connection's decisions as functions on small records, and the lemmas about them.
- `stanzas.dfy` (`Stanzas`): what read() writes and signals for the stanzas it handles by tag: acks, ib, notifications and calls.
- `waconnection.dfy` (`Connection`): the `WAConnectionPrivate` class. Each method is tied to the functions of `ConnectionLogic`.

Some parts of the system are kept abstract.

- SHA-1, the RC4 keystream and the token dictionary are parameters.
  - SHA-1 is any function with 20-octet results.
  - RC4 is any map from a key to an endless keystream. The first 0x300 octets are dropped, as the source does.
  - The dictionary is any partial map from (sub-dictionary, token) to text, with a primary size from 3 up to, but not including, the list token 248.
- Socket writes and Qt signals become an event log. `QTimer::singleShot` becomes a recorded delay. `invokeMethod` becomes a call to the handler named in the pending-reply table.
- The clock, the random server pick and the sync UUID are parameters.

The source uses a status `Initiaization` that its shown header lacks. The model orders the statuses Disconnected < Connecting < Connected < Initiaization < LoggedIn, which is the order the comparisons in `src/waconnection.cpp` imply.

The child collection is a multi-map keyed by tag (src/protocoltreenode.cpp:92). `protocoltreenodelist.h`, which declares it, is not part of this model; the model takes it to be a `QMultiMap`, as the `<QMap>` include of `src/protocoltreenode.h` suggests.

- `getChild` returns the most recently added child with the tag. That is what the value lookup of the source's child collection returns.
- Iterating over the children visits the tags in ascending order and, under one tag, the newest child first (`ProtocolTree.Iteration`). The loops over children in read()'s handlers follow that order.
- The attribute keys a `QMap` holds come out in ascending order, once each.

## Model

| member | source | states |
|---|---|---|
| Hmac.KeyBlock | src/hmacsha1.cpp:19-22 | a key longer than the 64-octet block is replaced by its digest, a shorter one is kept as it is; the result always fits the block |
| Hmac.Pad | src/hmacsha1.cpp:24-32 | the pad is 64 octets: the pad constant xor the key octet where the key reaches, the constant beyond it |
| Hmac.PadIsRfc2104 | src/hmacsha1.cpp:24-32 | the pad built by the xor loop equals RFC 2104's (K zero-padded to B) xor (the constant repeated B times) |
| Hmac.HmacOfReducedKey | src/hmacsha1.cpp:20-22 | reducing the key is idempotent, and HMAC over the reduced key equals HMAC over the original key, so keeping the reduced key changes no later digest |
| Hmac.Base64DigestLength | src/qtrfc2898.cpp:60 | the Base64 form of a 20-octet digest is 28 octets long |
| Hmac.QtHmac | src/qtrfc2898.cpp:37-61 | the Qt 4 helper's result is 28 octets long |
| Hmac.XorPads | src/hmacsha1.cpp:24-32 | the in-place xor loop over both pads builds exactly the inner and outer pads of the reduced key |
| Hmac.Hash | src/qtrfc2898.cpp:37-61 | the helper returns Base64(H(K xor opad, H(K xor ipad, text))) for the reduced key K |
| Hmac.HmacSha1Key.constructor | src/hmacsha1.cpp:3-10 | the object keeps the hash and the key as given |
| Hmac.HmacSha1Key.Compute | src/hmacsha1.cpp:12-42 | the raw digest is the RFC 2104 HMAC of the buffer under the key; the stored key is replaced by its reduced form, and the digest is the same under the old and the new key |
| Hmac.HmacSha1IsRfc2104 | src/hmacsha1.cpp:12-42 | the digest is that of section 2 of RFC 2104: H((K xor opad) + H((K xor ipad) + text)), with K the reduced key zero-padded to the 64-octet block |
| Hmac.RepeatedCompute | src/hmacsha1.cpp:20-22 | two calls with the same buffer return the same digest, although the first may shorten the stored key |
| Rfc2898.U | src/qtrfc2898.cpp:91-116 | every U value, the first one over salt and INT(i) and the later ones over the previous U, is one 28-octet PRF output |
| Rfc2898.F | src/qtrfc2898.cpp:102-116 | the block F(P, S, c, i), the xor of U_1 to U_c, is 28 octets long |
| Rfc2898.Blocks | src/qtrfc2898.cpp:89-119 | n blocks concatenated are 28 n octets long |
| Rfc2898.Pbkdf2 | src/qtrfc2898.cpp:89-121 | the RFC 2898 reference derivation yields exactly dkLen octets |
| Rfc2898.DerivedKey | src/qtrfc2898.cpp:70-122 | deriveBytes succeeds exactly when the iteration count is non-zero and the password is non-empty; it fails with the source's exception text otherwise |
| Rfc2898.ZeroIterationsFail | src/qtrfc2898.cpp:72-75 | a zero iteration count raises "PBKDF2: Invalid iteration count", whatever the password |
| Rfc2898.DerivedKeyIsPbkdf2 | src/qtrfc2898.cpp:86-121 | with a password of two octets or more the result is RFC 2898 PBKDF2 of length min(password length, 20), with a non-positive count acting as one round |
| Rfc2898.OneOctetPasswordGivesEmptyKey | src/qtrfc2898.cpp:87-89 | a one-octet password makes the block loop run zero times, so the key is empty although PBKDF2 of length 1 is one octet |
| Rfc2898.UOfKeyBlock | src/qtrfc2898.cpp:37-42 | every U value is the same for the password and for the key the hash helper reduces it to |
| Rfc2898.FOfKeyBlock | src/qtrfc2898.cpp:96-116 | so is every block F |
| Rfc2898.LongPasswordActsAsDigest | src/qtrfc2898.cpp:70-122 | a password longer than 64 octets derives exactly the key (or error) its SHA-1 digest derives: both ask for 20 octets and every HMAC round is keyed with the digest |
| Rfc2898.XorInPlace | src/qtrfc2898.cpp:114-115 | the in-place loop leaves obuf xor d in the buffer |
| Rfc2898.FirstU | src/qtrfc2898.cpp:91-102 | the four counter octets are written big-endian after the salt, and the first HMAC is U_1 of that block |
| Rfc2898.Iterate | src/qtrfc2898.cpp:105-116 | one pass of the inner loop advances d1 to the next U and obuf to the next partial xor |
| Rfc2898.Block | src/qtrfc2898.cpp:91-118 | one pass of the outer loop produces block F(P, S, rounds, count) |
| Rfc2898.DeriveBytes | src/qtrfc2898.cpp:70-122 | the nested loops over buffers return exactly DerivedKey, errors included |
| KeyStreams.Crypt | src/keystream.cpp:60 | ciphering keeps the length of the data |
| KeyStreams.CryptInvolutive | src/keystream.cpp:60 | ciphering twice from the same keystream position gives the input back |
| KeyStreams.CryptConcat | src/keystream.cpp:80 | ciphering two pieces one after the other equals ciphering them in one call |
| KeyStreams.ProcessBuffer | src/keystream.cpp:108-115 | the buffer is kept and followed by four octets whose big-endian value is the sequence number modulo 2^32 |
| KeyStreams.Accepts | src/keystream.cpp:45-74 | with the tag inside the 28-octet MAC, a frame of four octets or more is accepted exactly when its last four octets equal the four MAC octets at macOffset, the MAC taken over the body and the sequence number |
| KeyStreams.FrameBody | src/keystream.cpp:47 | the body is the frame without its last four octets, a prefix of it, and empty for a frame shorter than four |
| KeyStreams.TagMatches | src/keystream.cpp:62-72 | with both in range, the four octets agree one by one exactly when the MAC's four octets at macOffset are the tag |
| KeyStreams.OctetsAgree | src/keystream.cpp:62-72 | four octets agreeing at every index, in range, is the same as the slice equalling the tag |
| KeyStreams.Encoded | src/keystream.cpp:77-91 | encoding keeps the buffer length |
| KeyStreams.EncodedFrame | src/keystream.cpp:77-91 | a plaintext with four spare octets encodes to its ciphertext followed by the tag over the ciphertext and the sequence number |
| KeyStreams.FrameRoundTrip | src/keystream.cpp:45-91 | a frame encoded at sequence number n and keystream position p is accepted by a decoder at n and p, and deciphers to the plaintext |
| KeyStreams.Nonce | src/keystream.cpp:100-101 | the key index is appended to the nonce as one octet |
| KeyStreams.SessionKeys | src/keystream.cpp:93-106 | the four keys exist exactly when the password is non-empty, and there are four of them |
| KeyStreams.SessionKeysArePbkdf2 | src/keystream.cpp:99-103 | with a password of two octets or more, key i is RFC 2898 PBKDF2 with two iterations over nonce and i, of the password's length capped at 20 |
| KeyStreams.KeyFromPasswordAndNonce | src/keystream.cpp:93-106 | the loop returns SessionKeys, the failure of deriveBytes included |
| KeyStreams.KeyStream.constructor | src/keystream.cpp:34-43 | a new stream has the keystream of the RC4 key with 0x300 octets dropped, the MAC key, and sequence number 0 |
| KeyStreams.KeyStream.Cipher | src/keystream.cpp:60 | only [offset, offset + length) is ciphered, in place, and the keystream advances by length |
| KeyStreams.KeyStream.EncodeMessage | src/keystream.cpp:77-91 | the buffer becomes Encoded; the keystream advances by length and the sequence number by one |
| KeyStreams.KeyStream.DecodeMessage | src/keystream.cpp:45-74 | the result says whether the frame is accepted, the plaintext is the deciphered body, and the keystream and sequence number advance even when the tag is wrong |
| KeyStreams.KeyStream.CompareTag | src/keystream.cpp:62-72 | the loop reports a match exactly when all four tag octets agree |
| KeyStreams.KeyStream.Replace | src/keystream.cpp:90 | `replace(pos, 4, data, 4)` overwrites exactly the four octets at pos and keeps the rest of the buffer |
| KeyStreams.KeyStream.CipherCopy | src/keystream.cpp:58-59 | the copy of the body is ciphered from the current keystream position, which advances by its length |
| KeyStreams.EncodeThenDecode | src/keystream.cpp:34-91 | two streams built from the same keys, one encoding and one decoding, agree: the frame is accepted and the plaintext recovered |
| ProtocolTree.GetChild | src/protocoltreenode.cpp:142-145 | with a child of that tag, the result is such a child; without one, it is a default node |
| ProtocolTree.GetChildIsMostRecent | src/protocoltreenode.cpp:90-93 | the child returned is the most recently added one with the tag |
| ProtocolTree.GetChildAfterAdd | src/protocoltreenode.cpp:90-93 | right after addChild, getChild on the child's tag returns that child |
| ProtocolTree.GetChildAfterOtherAdd | src/protocoltreenode.cpp:90-93 | adding a child with another tag leaves getChild's answer unchanged |
| ProtocolTree.Place | src/protocoltreenode.cpp:90-93 | inserting a child into the multi-map adds exactly that child |
| ProtocolTree.PlaceAscends | src/protocoltreenode.cpp:90-93 | inserting a child keeps the children ordered by tag |
| ProtocolTree.PlaceTagged | src/protocoltreenode.cpp:90-93 | among the children of one tag, the one inserted last comes first |
| ProtocolTree.Iteration | src/protocoltreenode.cpp:137-140 | iterating over the children visits each added child exactly once |
| ProtocolTree.IterationAscends | src/protocoltreenode.cpp:137-140 | an iteration visits the tags in ascending order |
| ProtocolTree.NewestFirst | src/protocoltreenode.cpp:142-145 | exactly the children of that tag; the first is the one getChild returns, and none when there is no such child |
| ProtocolTree.IterationNewestFirst | src/protocoltreenode.cpp:137-145 | an iteration meets the children of one tag newest first, starting with the one getChild returns |
| ProtocolTree.Tagged | src/protocoltreenode.cpp:137-140 | only children of the tag, never more than there are |
| ProtocolTree.HasChildIffTagged | src/waconnection.cpp:911 | `getChildren().contains(tag)` holds exactly when the children of that tag are not none |
| ProtocolTree.AttributeValue | src/protocoltreenode.cpp:132-135 | the stored value of a present key, the empty string for a missing one |
| ProtocolTree.DataString | src/protocoltreenode.cpp:152-155 | one character per payload octet |
| ProtocolTree.RenderShapes | src/protocoltreenode.cpp:163-206 | a node with neither children nor payload ends in " />"; any other node ends in its closing tag, preceded by the payload line when it has a payload and no children |
| ProtocolTree.Render | src/protocoltreenode.cpp:163-178 | a rendering starts with a new line, the indent of its depth, '<', the tag and the attribute text, and goes on after them |
| ProtocolTree.RenderNested | src/protocoltreenode.cpp:180-188 | a node with children renders all of them one level deeper, in order, just before its closing tag |
| ProtocolTree.RenderNode | src/protocoltreenode.cpp:163-206 | toString's loop of appends produces Render |
| ProtocolTree.RenderChildren | src/protocoltreenode.cpp:180-185 | the loop over the children concatenates their renderings |
| ProtocolTree.ProtocolTreeNode.constructor | src/protocoltreenode.cpp:34-37 | a new node is the empty node |
| ProtocolTree.ProtocolTreeNode.Copy | src/protocoltreenode.cpp:40-48 | the copy has every field of the original, children and size included |
| ProtocolTree.ProtocolTreeNode.WithTag | src/protocoltreenode.cpp:76-80 | only the tag is set |
| ProtocolTree.ProtocolTreeNode.WithData | src/protocoltreenode.cpp:82-88 | only the tag and the payload are set |
| ProtocolTree.ProtocolTreeNode.WithAttributes | src/protocoltreenode.cpp:58-63 | only the tag and the attributes are set |
| ProtocolTree.ProtocolTreeNode.WithAttributesAndData | src/protocoltreenode.cpp:50-56 | only the tag, the attributes and the payload are set |
| ProtocolTree.ProtocolTreeNode.AddChild | src/protocoltreenode.cpp:90-93 | the child is appended and every other field is unchanged; getChild on its tag now returns it; the child count grows by one and the attribute count stays |
| ProtocolTree.ProtocolTreeNode.SetTag | src/protocoltreenode.cpp:95-98 | only the tag changes |
| ProtocolTree.ProtocolTreeNode.SetData | src/protocoltreenode.cpp:100-103 | only the payload changes |
| ProtocolTree.ProtocolTreeNode.SetSize | src/protocoltreenode.cpp:208-211 | only the size changes |
| ProtocolTree.ProtocolTreeNode.SetAttributes | src/protocoltreenode.cpp:105-115 | clearing and then inserting every pair leaves exactly the given attributes, so the attribute count is their number, and nothing else changes |
| ProtocolTree.ProtocolTreeNode.ToString | src/protocoltreenode.cpp:163-206 | the holder renders as its node value does |
| Bytes.Be32 | src/keystream.cpp:108-115 | the sequence number is written as exactly four octets |
| Bytes.Be32Value | src/keystream.cpp:108-115 | the four octets are the value modulo 2^32, most significant first |
| Bytes.Be32Injective | src/qtrfc2898.cpp:91-94 | two block counters below 2^32 never give the same four octets |
| Bytes.Left | src/qtrfc2898.cpp:121 | `QByteArray::left` keeps the first n octets, all of them when n reaches the size, none when n is negative |
| Bytes.Right | src/keystream.cpp:49 | `QByteArray::right` keeps the last n octets, all of them when n reaches the size |
| Bytes.Text | src/bintreenodereader.cpp:213 | the text of decoded octets has one character per octet, with the octet's value |
| Bytes.Utf8Char | src/waconnection.cpp:1335-1339 | a character encodes to one to four octets, and to exactly one when it is ASCII |
| Bytes.Utf8 | src/waconnection.cpp:1335-1339 | the UTF-8 form is never shorter than the text |
| Bytes.Utf8OfAscii | src/waconnection.cpp:700-725 | an ASCII text encodes to its own character codes, and reading those back gives the text |
| Bytes.Number | src/waconnection.cpp:992-1002 | a numeral has at least one digit and is ASCII |
| Bytes.ParseNumberOfNumber | src/waconnection.cpp:992-1002 | reading the digits of `QString::number(n, base)` back gives n |
| Bytes.NumberInjective | src/waconnection.cpp:992-1002 | two different numbers have different numerals |
| Bytes.HexOctet | src/bintreenodereader.cpp:376 | a nibble becomes the ASCII code of its lower-case hex digit |
| Bytes.ToHex | src/bintreenodereader.cpp:376 | `toHex` gives two digits per octet |
| Bytes.HexDigits | src/bintreenodereader.cpp:376 | octet i becomes digit 2i (its high nibble) and digit 2i+1 (its low nibble) |
| Bytes.Base64Length | src/qtrfc2898.cpp:60 | `toBase64` turns every started group of three octets into four characters |
| Bytes.Latin1 | src/waconnection.cpp:478-486 | `toLatin1` gives one octet per character: the character's code below 256, `?` beyond |
| Bytes.Latin1RoundTrip | src/waconnection.cpp:478-486 | Latin-1 text written by `toLatin1` reads back, one character per octet, as the same text |
| Bytes.TrimStart | src/waconnection.cpp:913-916 | the text left after the leading white space is a suffix that starts with no white space, and everything cut is white space |
| Bytes.TrimEnd | src/waconnection.cpp:913-916 | the text left before the trailing white space is a prefix that ends with no white space, and everything cut is white space |
| Bytes.StartOfPadded | src/waconnection.cpp:913-916 | white space in front of a text that starts with none is cut exactly |
| Bytes.EndOfPadded | src/waconnection.cpp:913-916 | white space after a text that ends with none is cut exactly |
| Bytes.TrimmedOfPadded | src/waconnection.cpp:913-916 | white space on both sides of a text with none at its ends is cut, and nothing else |
| Bytes.TrimmedKeepsHead | src/waconnection.cpp:913-916 | a text that starts with a character other than white space keeps that character in front |
| Bytes.ToInt | src/waconnection.cpp:913-916 | `QString::toInt` gives a 32-bit int, and 0 for text that is not an optionally signed run of decimal digits once the white space around it is skipped |
| Bytes.ToIntOfNumber | src/waconnection.cpp:913-916 | a decimal numeral read back with `toInt` gives its number, for every number an int holds |
| Bytes.ToIntOfNegative | src/waconnection.cpp:913-916 | a minus sign and a numeral read back as the negated number, down to -2^31 |
| OrderedKeys.Units | src/waconnection.cpp:1843-1875 | a `QString` stores a character below 0x10000 as one code unit and any other as a high and a low surrogate |
| OrderedKeys.UnitsLessAfterPrefix | src/waconnection.cpp:1843-1875 | code units two keys share at the front do not decide their order |
| OrderedKeys.UnitsOfDifferentChars | src/waconnection.cpp:1843-1875 | two different characters are ordered by their code units as their ranks say, whatever follows them |
| OrderedKeys.LessIsUtf16Order | src/waconnection.cpp:1843-1875 | the key order `Less` of `QMap<QString, ...>` is exactly the order of the keys' UTF-16 code units, so a character with a surrogate pair sorts before one from U+E000 to U+FFFF |
| OrderedKeys.Less | src/waconnection.cpp:1843-1875 | the key order of `QMap<QString, ...>`: no key sorts before itself |
| OrderedKeys.LessTransitive | src/waconnection.cpp:1843-1875 | the key order is transitive |
| OrderedKeys.LessTotal | src/waconnection.cpp:1843-1875 | of two different keys, one sorts before the other |
| OrderedKeys.Insert | src/waconnection.cpp:1843-1875 | after inserting a key, the list holds exactly the old keys and the new one, and grows by at most one |
| OrderedKeys.Keys | src/waconnection.cpp:1843-1875 | `keys()` holds exactly the keys inserted, and never more entries than were inserted |
| OrderedKeys.InsertAscending | src/waconnection.cpp:1843-1875 | inserting a key into a `QMap` keeps its keys ascending, and the keys are the old ones plus the new one |
| OrderedKeys.KeysAscending | src/waconnection.cpp:1843-1875 | `keys()` of a map filled from a list is ascending, holds each key once, and holds exactly the keys inserted |
| TreeDecoding.ReadInt8 | src/bintreenodereader.cpp:412-418 | an octet is read exactly when one is left; the cursor moves past it, or stays put at the end |
| TreeDecoding.Signed16 | src/bintreenodereader.cpp:449-461 | two octets stored into a signed 16-bit variable: the same value modulo 2^16, in [-0x8000, 0x8000), and unchanged below 0x8000 |
| TreeDecoding.ReadInt16 | src/bintreenodereader.cpp:449-461 | succeeds exactly when two octets are left, giving them big-endian as a signed 16-bit value; a short read consumes what is left |
| TreeDecoding.ReadInt24 | src/bintreenodereader.cpp:463-477 | succeeds exactly when three octets are left, giving them big-endian; a short read consumes what is left |
| TreeDecoding.FillArray | src/bintreenodereader.cpp:254-258 | takes up to n octets, exactly those following the cursor, and succeeds exactly when all n were there |
| TreeDecoding.ReadListSize | src/bintreenodereader.cpp:222-247 | token 0 is size 0 with nothing consumed; 248 is the next octet; 249 the next two as a signed 16-bit value; any other token is fatal |
| TreeDecoding.GetToken | src/bintreenodereader.cpp:387-410 | a dictionary lookup consumes at most the one extra octet of a second lookup |
| TreeDecoding.PackedLength | src/bintreenodereader.cpp:372 | the octet count of a packed string is the low seven bits of its length octet |
| TreeDecoding.Separators | src/bintreenodereader.cpp:377 | replacing 'a' by '-' and 'b' by '.' keeps the length |
| TreeDecoding.ReadString | src/bintreenodereader.cpp:303-311 | reads a token octet and the string it introduces; at the end of the stream it fails without consuming anything |
| TreeDecoding.ReadStringToken | src/bintreenodereader.cpp:313-385 | the cursor only moves forward; token 0 fails without the fatal path and consumes nothing |
| TreeDecoding.ReadBinary8 | src/bintreenodereader.cpp:329-334 | token 252 is an 8-bit length read followed by fillArray of that length |
| TreeDecoding.ReadBinary24 | src/bintreenodereader.cpp:335-340 | token 253 is a 24-bit length read followed by fillArray of that length |
| TreeDecoding.ReadExtended | src/bintreenodereader.cpp:341-346 | token 254 reads one octet and looks up the primary size plus that octet |
| TreeDecoding.ReadJid | src/bintreenodereader.cpp:347-364 | the cursor only moves forward over the user and server parts |
| TreeDecoding.ReadPacked | src/bintreenodereader.cpp:365-380 | tokens 251 and 255 succeed exactly when the announced octets are all there, and give their digits |
| TreeDecoding.Unpack | src/bintreenodereader.cpp:365-380 | the digits are as many as the nibble count announces, at most two per octet and none for a negative count; digit k is nibble k % 2 of octet k / 2, high nibble first, as its packed character |
| TreeDecoding.AttribCount | src/bintreenodereader.cpp:154 | for a size of one or more, (size - 2 + size % 2) / 2 is a pair count r with size = 1 + 2r, plus one for an even size: one slot for the tag, two per pair, one for the content |
| TreeDecoding.ReadAttributes | src/bintreenodereader.cpp:207-220 | pairs are read one after another, and a pair that fails is skipped, never reported; the keys already held stay |
| TreeDecoding.NextTreeInternal | src/bintreenodereader.cpp:128-183 | at the end of the stream nothing is read and the node is untouched |
| TreeDecoding.ReadList | src/bintreenodereader.cpp:190-205 | the cursor only moves forward while the children are read |
| TreeDecoding.ReadChildren | src/bintreenodereader.cpp:197-204 | the child loop always succeeds |
| TreeDecoding.HeaderSplit | src/bintreenodereader.cpp:57-59 | the flags are the high nibble of the first header octet and the length is the other 20 bits; together they rebuild the header |
| TreeDecoding.HeaderFlags | src/bintreenodereader.cpp:57-58 | the flags are four bits |
| TreeDecoding.HeaderLength | src/bintreenodereader.cpp:57-59 | the length is 20 bits, and for a 24-bit header the flags above it and the length rebuild the header |
| TreeDecoding.EightBitLiteral | src/bintreenodereader.cpp:329-334 | token 252 gives exactly the n octets after the length octet n, and fails, without the fatal path, when fewer remain |
| TreeDecoding.TwentyFourBitLiteral | src/bintreenodereader.cpp:335-340 | token 253 gives exactly the n octets after a 24-bit length n, and fails when fewer remain |
| TreeDecoding.ExtendedToken | src/bintreenodereader.cpp:341-346 | token 254 looks up the primary size plus the next octet |
| TreeDecoding.PrimaryToken | src/bintreenodereader.cpp:320-321 | a token between 2 and the primary size is a dictionary lookup, and a non-empty entry is its text with nothing more consumed |
| TreeDecoding.SecondLookup | src/bintreenodereader.cpp:387-410 | an empty primary entry reads one more octet, looked up in the sub-dictionary the first lookup left; an empty second entry fails on the fatal path |
| TreeDecoding.Literal | src/bintreenodereader.cpp:329-334 | the token-252 layout of a short literal: the token, the length, the octets |
| TreeDecoding.ReadLiteral | src/bintreenodereader.cpp:303-334 | a literal anywhere in the stream reads back as its octets, with the cursor just past it |
| TreeDecoding.JidOfUserAndServer | src/bintreenodereader.cpp:347-354 | a JID pair of two literals reads as user@server |
| TreeDecoding.JidOfServerOnly | src/bintreenodereader.cpp:355-359 | a JID pair whose user part fails reads as the server alone |
| TreeDecoding.JidWithoutServer | src/bintreenodereader.cpp:360-363 | a JID pair whose server part fails is fatal |
| TreeDecoding.PairSkipped | src/bintreenodereader.cpp:212-217 | a pair whose key or value fails leaves the map as it was, and the reading goes on after it |
| TreeDecoding.EmptyKeySkipped | src/bintreenodereader.cpp:212-217 | a key that is the empty token 0 costs one octet and changes nothing |
| TreeDecoding.PairInserted | src/bintreenodereader.cpp:212-214 | a pair that decodes is inserted, replacing an earlier value of the key, before the rest is read |
| TreeDecoding.PairRead | src/bintreenodereader.cpp:207-220 | the whole result after a decoded pair, the fatal flag included |
| TreeDecoding.InsertAllKeys | src/bintreenodereader.cpp:212-214 | the keys of the map after the inserts are the old ones and those of the pairs; a key no pair names keeps its value |
| TreeDecoding.InsertAllLastWins | src/bintreenodereader.cpp:212-214 | a key holds the value of the last pair that carries it |
| TreeDecoding.AttributesRoundTrip | src/bintreenodereader.cpp:207-220 | literal pairs in the stream are read back into the map, in order, with the cursor just past them and nothing fatal |
| TreeDecoding.OddSizeNode | src/bintreenodereader.cpp:128-165 | an odd list size: the node is its tag and (size - 1) / 2 attributes and decodes exactly when its tag does |
| TreeDecoding.ListContentNode | src/bintreenodereader.cpp:128-205 | an even size followed by a list token: the node decodes exactly when the list size does, and gets one child per announced entry after its own |
| TreeDecoding.MissingContentNode | src/bintreenodereader.cpp:165-169 | an even size with no octet after the attributes fails, with tag and attributes already set |
| TreeDecoding.PayloadNode | src/bintreenodereader.cpp:165-182 | an even size followed by another token: the node decodes exactly when its payload does, and the payload is that string |
| TreeDecoding.EightBitSize | src/bintreenodereader.cpp:222-240 | token 248 and a length octet announce a list of that many entries |
| TreeDecoding.OpeningPieces | src/bintreenodereader.cpp:128-163 | a written opening reads back as its list size, its tag and its attributes |
| TreeDecoding.ElementRoundTrip | src/bintreenodereader.cpp:128-165 | an element written as an 8-bit list size, a literal tag and literal pairs reads back as that tag and those attributes, with nothing fatal |
| TreeDecoding.PayloadRoundTrip | src/bintreenodereader.cpp:128-182 | the same with a literal payload after the pairs: tag, attributes and payload read back |
| TreeDecoding.PackedAtStart | src/bintreenodereader.cpp:365-380 | a packed string at the start of a stream reads as the kept digits of the announced octets |
| TreeDecoding.PackedRead | src/bintreenodereader.cpp:365-380 | tokens 251 and 255 keep 2n digits of the n octets, one less when the high bit is set, and fail only when the octets are missing |
| TreeDecoding.UnpackDigits | src/bintreenodereader.cpp:369-377 | the digits of a packed string are its nibbles' hex digits, high nibble first, with 'a' and 'b' read as '-' and '.', two per octet or one less when the length octet's high bit is set, so only digits, '-', '.' and 'c' to 'f' occur |
| TreeDecoding.ChildrenAdded | src/bintreenodereader.cpp:197-204 | readList adds exactly one child per announced entry, after the existing ones, whether or not it decoded, and changes nothing else |
| TreeDecoding.ChildrenAtEnd | src/bintreenodereader.cpp:197-204 | children announced past the end of the stream are added as default nodes |
| TreeReader.Payload | src/bintreenodereader.cpp:55-77 | the payload of a frame is as long as its header's 20-bit length |
| TreeReader.AfterFrame | src/bintreenodereader.cpp:55-77 | taking a frame consumes the three header octets and the payload |
| TreeReader.Encrypted | src/bintreenodereader.cpp:87 | a frame is ciphered exactly when bit 3 of its flags is set |
| TreeReader.FrameAvailable | src/bintreenodereader.cpp:55-63 | a frame is taken only when the three header octets and the whole length they announce have arrived, and at least four octets are there |
| TreeReader.BinTreeNodeReader.constructor | src/bintreenodereader.cpp:36-43 | a new reader is on the transport, with empty buffers, no key and an empty stream |
| TreeReader.BinTreeNodeReader.Reset | src/bintreenodereader.cpp:45-53 | the key is forgotten, both buffers cleared and the stream closed; the transport stays |
| TreeReader.BinTreeNodeReader.SetInputKey | src/bintreenodereader.cpp:479-482 | the key is replaced |
| TreeReader.BinTreeNodeReader.Harakiri | src/bintreenodereader.cpp:484-489 | the reader is marked broken |
| TreeReader.BinTreeNodeReader.GetOneToplevelStreamSize | src/bintreenodereader.cpp:79-83 | the stanza size is the decoded length plus 7 |
| TreeReader.BinTreeNodeReader.ReadInt8 | src/bintreenodereader.cpp:412-418 | reads on the stream exactly as TreeDecoding.ReadInt8 says |
| TreeReader.BinTreeNodeReader.ReadInt16 | src/bintreenodereader.cpp:449-461 | reads on the stream exactly as TreeDecoding.ReadInt16 says |
| TreeReader.BinTreeNodeReader.ReadInt24 | src/bintreenodereader.cpp:463-477 | reads on the stream exactly as TreeDecoding.ReadInt24 says |
| TreeReader.BinTreeNodeReader.FillArray | src/bintreenodereader.cpp:254-258 | reads on the stream exactly as TreeDecoding.FillArray says |
| TreeReader.BinTreeNodeReader.ReadListSize | src/bintreenodereader.cpp:222-247 | result, cursor and broken flag exactly as TreeDecoding.ReadListSize says |
| TreeReader.BinTreeNodeReader.GetToken | src/bintreenodereader.cpp:387-410 | result, cursor and broken flag exactly as TreeDecoding.GetToken says |
| TreeReader.BinTreeNodeReader.ReadString | src/bintreenodereader.cpp:303-311 | result, cursor and broken flag exactly as TreeDecoding.ReadString says |
| TreeReader.BinTreeNodeReader.ReadStringToken | src/bintreenodereader.cpp:313-385 | result, cursor and broken flag exactly as TreeDecoding.ReadStringToken says |
| TreeReader.BinTreeNodeReader.ReadAttributes | src/bintreenodereader.cpp:207-220 | the loop's attributes, cursor and broken flag are those of TreeDecoding.ReadAttributes, a negative count reading none |
| TreeReader.BinTreeNodeReader.NextTreeInternal | src/bintreenodereader.cpp:128-183 | the node filled in place, the result, cursor and broken flag are those of TreeDecoding.NextTreeInternal |
| TreeReader.BinTreeNodeReader.ReadList | src/bintreenodereader.cpp:190-205 | the node, result, cursor and broken flag are those of TreeDecoding.ReadList |
| TreeReader.BinTreeNodeReader.ReadChildren | src/bintreenodereader.cpp:197-204 | the loop adds the children TreeDecoding.ReadChildren gives, none for a negative size |
| TreeReader.BinTreeNodeReader.ReadChild | src/bintreenodereader.cpp:199-202 | one pass of the loop decodes a default node as TreeDecoding.NextTreeInternal says |
| TreeReader.BinTreeNodeReader.DecodeRawStream | src/bintreenodereader.cpp:85-111 | a plain frame is copied; a ciphered frame below four octets is fatal; otherwise it is accepted exactly when its tag matches, the key's sequence number and keystream advance either way, and an accepted frame's decoded buffer is the deciphered body without its tag |
| TreeReader.BinTreeNodeReader.GetOneToplevelStream | src/bintreenodereader.cpp:55-77 | one frame is taken off the transport; its flags and length come from the header; the stream is reopened on the decoded buffer when it decodes and is empty otherwise |
| TreeReader.BinTreeNodeReader.NextTree | src/bintreenodereader.cpp:113-126 | one frame is taken; when it decodes, the node gets the stanza size (decoded length + 7) and is filled in as TreeDecoding.NextTreeInternal says; a rejected frame leaves the node as it was |
| ConnectionLogic.AdvanceAdd | src/waconnection.cpp:992-995 | increments made in two runs count as one run of their sum |
| ConnectionLogic.AdvanceWraps | src/waconnection.cpp:992-995 | k increments of the `uint` counter add k modulo 2^32 |
| ConnectionLogic.Classify | src/waconnection.cpp:1491-1609 | every tag read() compares against has its own kind; a tag that matches none is unrecognized |
| ConnectionLogic.IdsNeverRepeat | src/waconnection.cpp:992-995 | makeId never returns the same id twice while fewer than 2^32 ids are made |
| ConnectionLogic.IdAt | src/waconnection.cpp:992-995 | the id makeId returns i calls after the counter stood at start reads back in hexadecimal as the counter moved i times |
| ConnectionLogic.MessageIdOf | src/waconnection.cpp:997-1002 | the message id is the session time in decimal, a '-', then the counter in hexadecimal, and both read back |
| ConnectionLogic.MessageIdsDistinct | src/waconnection.cpp:997-1002 | two message counters give two different message ids in the same session |
| ConnectionLogic.ToUnsigned | src/waconnection.cpp:749-750 | `toUInt` gives a value below its bound, or 0, and 0 whenever the text is not a decimal numeral once white space around it and a '+' in front are skipped |
| ConnectionLogic.ToUnsignedOfNumber | src/waconnection.cpp:749-750 | a numeral below the bound reads back, with any white space around it and with or without a '+' |
| ConnectionLogic.NegativeUnsignedIsZero | src/waconnection.cpp:1465-1468 | text starting with a minus sign reads as 0 |
| ConnectionLogic.UserPart | src/waconnection.cpp:1465-1468 | the first part of `split("@")` is the prefix before the first '@' and holds no '@' |
| ConnectionLogic.Recipient | src/waconnection.cpp:1465-1468 | getRecepient fits 64 bits and is 0 when the user part is not a decimal numeral, white space around it and a '+' in front skipped |
| ConnectionLogic.RecipientOfJid | src/waconnection.cpp:1465-1468 | getRecepient of "<n>@server" is n for every 64-bit n |
| ConnectionLogic.UserPartBeforeAt | src/waconnection.cpp:1465-1468 | the user part of w@rest is w when w holds no '@' |
| ConnectionLogic.SyncModeTable | src/waconnection.cpp:423-463 | the nine sync types give nine different (mode, context) pairs; any other type is sent as type 4 |
| ConnectionLogic.SyncMode | src/waconnection.cpp:423-463 | the mode is one of full, delta, query and chunked, and the context one of registration, interactive and background |
| ConnectionLogic.SyncContactsType | src/waconnection.cpp:415-419 | syncContacts syncs ("full", "registration") when passive and ("delta", "interactive") otherwise |
| ConnectionLogic.SendWrites | src/waconnection.cpp:611-617 | sendRequest(node) writes the node exactly when the socket is open and never touches the id counter or the pending-reply table |
| ConnectionLogic.Send | src/waconnection.cpp:611-617 | sending leaves the socket state, the id counter and the table as they were, and adds one event exactly when the socket is open |
| ConnectionLogic.SendBound | src/waconnection.cpp:619-626 | with the socket open, the node's id is bound to the member; with it closed, nothing changes |
| ConnectionLogic.Request | src/waconnection.cpp:122-137 | an iq request always moves the id counter on; a closed socket binds and writes nothing |
| ConnectionLogic.IqNode | src/waconnection.cpp:122-137 | an iq stanza has the given id, keeps every other attribute it was given, and carries exactly the one child |
| ConnectionLogic.UserNode | src/waconnection.cpp:159-187 | a "user" node carries the jid and no children |
| ConnectionLogic.LastSeenQuery | src/waconnection.cpp:139-157 | a get iq to the jid in the jabber:iq:last namespace |
| ConnectionLogic.StatusesQuery | src/waconnection.cpp:159-187 | a get iq to the domain in the status namespace |
| ConnectionLogic.StatusList | src/waconnection.cpp:159-187 | a "status" node whose children are exactly "user" nodes for the jids that hold an '@' |
| ConnectionLogic.PictureQuery | src/waconnection.cpp:189-207 | a get iq to the jid in the w:profile:picture namespace |
| ConnectionLogic.PictureIdsQuery | src/waconnection.cpp:209-235 | a get iq to the domain in the w:profile:picture namespace |
| ConnectionLogic.PictureIdsList | src/waconnection.cpp:209-235 | a "list" node whose children are exactly "user" nodes for the jids that hold an '@' |
| ConnectionLogic.PushConfigQuery | src/waconnection.cpp:323-338 | a get iq to the domain in the urn:xmpp:whatsapp:push namespace |
| ConnectionLogic.FeaturesQuery | src/waconnection.cpp:511-535 | a get iq to the domain in the features namespace |
| ConnectionLogic.FeatureList | src/waconnection.cpp:511-535 | a "feature" node holding one "list" with one "user" node per jid, in order |
| ConnectionLogic.BroadcastsQuery | src/waconnection.cpp:554-568 | a get iq to the domain in the w:b namespace |
| ConnectionLogic.PingQuery | src/waconnection.cpp:122-137 | a get iq to the domain in the w:p namespace |
| ConnectionLogic.PassiveQuery | src/waconnection.cpp:1150-1165 | a set iq to the domain in the passive namespace |
| ConnectionLogic.RouteOf | src/waconnection.cpp:1485-1491 | a stanza goes to a handler exactly when its id is pending |
| ConnectionLogic.Taken | src/waconnection.cpp:1487 | the stanza's id, and only it, leaves the table |
| ConnectionLogic.ReplyGoesToHandler | src/waconnection.cpp:611-626 | a request writes one stanza carrying the next id; its reply is routed to the named handler; once the id is taken, a stanza with it goes by its tag |
| ConnectionLogic.PushnameOf | src/waconnection.cpp:1614-1618 | a push-name event exactly for a stanza with "notify": for the participant when there is one, else for the sender |
| ConnectionLogic.LoggedOut | src/waconnection.cpp:87-96 | logout changes only the event log |
| ConnectionLogic.LogoutEvents | src/waconnection.cpp:87-96 | from Initiaization on, the unavailable presence (when open) and the stream end; then the close when open |
| ConnectionLogic.LogoutCloses | src/waconnection.cpp:87-96 | the close is asked for exactly when the socket is open, and the stream ended exactly from Initiaization on |
| ConnectionLogic.AfterDisconnect | src/waconnection.cpp:1651-1674 | the policy keeps the error and the authentication flag and starts at most one timer |
| ConnectionLogic.RemoteCloseRetries | src/waconnection.cpp:1651-1661 | a remote close, before authentication failed and before ten retries: Connecting, retry + 1, a timer of retry * 1000 ms, and the status announced |
| ConnectionLogic.RemoteCloseGivesUp | src/waconnection.cpp:1662-1665 | a remote close after authentication failed or after ten retries: Disconnected and nothing else |
| ConnectionLogic.OtherCloseReconnectsOnce | src/waconnection.cpp:1667-1670 | any other close with a passive reconnect pending: one timer of 1000 ms, the flag cleared, no status signal |
| ConnectionLogic.OtherCloseDisconnects | src/waconnection.cpp:1671-1674 | any other close without one: Disconnected and nothing else |
| ConnectionLogic.AfterSocketError | src/waconnection.cpp:1677-1686 | the error is kept; a network error also means Disconnected; nothing else changes |
| ConnectionLogic.Backoff | src/waconnection.cpp:1658-1660 | n retries have n delays |
| ConnectionLogic.RetryCount | src/waconnection.cpp:1651-1666 | k remote closes in a row from retry r make min(k, 10 - r) retries; the status is Connecting while retries remain and Disconnected after |
| ConnectionLogic.RetryBackoff | src/waconnection.cpp:1651-1666 | those retries wait r+1, r+2, ... seconds, up to the tenth, and no other timer starts |
| ConnectionLogic.PassiveReconnectsOnce | src/waconnection.cpp:1962-1968 | after passiveResponse the next disconnect reconnects once after a second, and the one after that ends Disconnected |
| ConnectionLogic.CountDown | src/waconnection.cpp:1753-1759 | while passive the count drops by one, and the reply that brings it to zero asks for the next list and may re-arm it at one; outside passive mode nothing happens |
| ConnectionLogic.AfterSync | src/waconnection.cpp:1862-1873 | while passive, contacts found set the count to 2 and one more reply makes 3; otherwise one more; the groups are due again |
| ConnectionLogic.Nothings | src/waconnection.cpp:1753-1759 | n replies that ask for nothing |
| ConnectionLogic.CountdownAsksOnce | src/waconnection.cpp:1753-1759 | of k awaited replies only the k-th asks for the next list, and the count is then re-armed |
| ConnectionLogic.PassiveChain | src/waconnection.cpp:1843-1925 | a passive login asks for the groups on the third reply after the sync, and for the broadcast lists after the last picture reply |
| ConnectionLogic.PicturesToFetch | src/waconnection.cpp:1795-1817 | exactly the users without a picture id (every user while passive) have their picture asked for |
| ConnectionLogic.PicturesLaterFirst | src/waconnection.cpp:1800-1816 | the iteration over the users asks for the later-added users' pictures before the earlier ones' |
| ConnectionLogic.NewestPictureFirst | src/waconnection.cpp:1800-1816 | the most recently added user that needs a picture is asked for first |
| ConnectionLogic.UserJids | src/waconnection.cpp:1849-1860 | exactly the jids of the "user" children |
| ConnectionLogic.SyncedJidsAreUsers | src/waconnection.cpp:1843-1875 | a jid is synced exactly when a "user" under sync/in carries it |
| ConnectionLogic.GroupIds | src/waconnection.cpp:1877-1925 | one "<id>@g.us" per group |
| ConnectionLogic.GroupJidsOfGroups | src/waconnection.cpp:1877-1925 | picture ids are asked for exactly when groups are listed; every group's jid once, ascending |
| ConnectionLogic.Users | src/waconnection.cpp:159-187 | one "user" node per jid, in order |
| ConnectionLogic.WithAt | src/waconnection.cpp:159-187 | exactly the jids holding an '@' |
| ConnectionLogic.WithoutP | src/waconnection.cpp:421-509 | `remove("p")` leaves no 'p' and never lengthens |
| ConnectionLogic.SyncUsers | src/waconnection.cpp:475-489 | one or two bare "user" nodes per number |
| ConnectionLogic.SyncUsersCarry | src/waconnection.cpp:475-489 | every number goes out without its 'p's as `toLatin1` writes it, and once more with a '+' in front when it does not start with one |
| ConnectionLogic.DeleteUsers | src/waconnection.cpp:421-509 | one "user" node per jid to delete |
| ConnectionLogic.SyncNode | src/waconnection.cpp:421-509 | the sync node carries the mode and context of its type, then the numbers' users (SyncUsers) and then the deleted jids' users |
| ConnectionLogic.Asked | src/waconnection.cpp:1753-1759 | a countdown at zero makes one request, otherwise none |
| ConnectionLogic.RequestPictures | src/waconnection.cpp:1821-1823 | one request per jid, each moving the counter on |
| ConnectionLogic.PicturesBound | src/waconnection.cpp:1821-1823 | each picture request's id waits for contactPicture, and no two share an id |
| ConnectionLogic.AuthNode | src/waconnection.cpp:678-698 | the auth stanza has mechanism WAUTH-2, the user, "passive" exactly when passive, and the blob as its data |
| ConnectionLogic.AuthPlain | src/waconnection.cpp:700-725 | four zero octets, then the user name, the nonce and the time in decimal milliseconds |
| ConnectionLogic.AuthBlob | src/waconnection.cpp:700-725 | the blob exists exactly when the password is non-empty |
| ConnectionLogic.AuthBlobLayout | src/waconnection.cpp:700-725 | the blob is the first outgoing frame's tag followed by the ciphered rest, and deciphering the rest gives the user name, nonce and time back |
| ConnectionLogic.SendAuthEffects | src/waconnection.cpp:678-698 | the writer is ciphered exactly when a nonce is stored and its blob was made; the stanza carries that blob; a blob that throws sends nothing |
| ConnectionLogic.AuthSent | src/waconnection.cpp:678-698 | sendAuth leaves the socket state, the id counter and the table as they were and only adds events; with a nonce stored and a blob that throws, nothing changes |
| ConnectionLogic.RespondEffects | src/waconnection.cpp:727-736 | the challenge is answered once with its blob and the writer ciphered after it; a blob that throws sends nothing |
| ConnectionLogic.Respond | src/waconnection.cpp:727-736 | sendResponse changes nothing exactly when the blob throws; it never touches the socket state, the id counter or the table |
| ConnectionLogic.TimeCorrection | src/waconnection.cpp:749-750 | the server time minus ours as `uint`s: the gap, or 2^32 less the gap when the server is behind |
| ConnectionLogic.WrappedDifference | src/waconnection.cpp:749-750 | the `uint` difference is a - b when a is not below b, and 2^32 - (b - a) otherwise |
| ConnectionLogic.Expired | src/waconnection.cpp:742 | an expired account is one whose status attribute is "expired" |
| ConnectionLogic.UploadsPreKeys | src/waconnection.cpp:755-757 | the pre-keys are uploaded only by an active login whose store holds none |
| ConnectionLogic.SuccessData | src/waconnection.cpp:740-753 | the account data is the stanza's attributes plus the next nonce in Base64 |
| ConnectionLogic.EncryptRequest | src/waconnection.cpp:1365-1438 | the pre-key upload takes the next id and binds it to encryptionReply |
| ConnectionLogic.RequestBinds | src/waconnection.cpp:619-626 | a request on an open socket binds exactly its own id to its handler |
| ConnectionLogic.Followups | src/waconnection.cpp:763-777 | the follow-ups take two ids when passive and three otherwise |
| ConnectionLogic.FollowupsBind | src/waconnection.cpp:763-777 | they bind their ids in order to privacyList, pushConfig and (unless passive) onPong |
| ConnectionLogic.SuccessSignals | src/waconnection.cpp:755-777 | a successful login signals authSuccess with the account data and ends by announcing Initiaization or LoggedIn |
| ConnectionLogic.SuccessIds | src/waconnection.cpp:755-777 | it uses one id per request: the pre-keys when due, two follow-ups, and a ping unless passive |
| ConnectionLogic.Succeeded | src/waconnection.cpp:755-777 | a successful login keeps the socket state and its last event announces Initiaization when passive, LoggedIn otherwise |
| ConnectionLogic.TextMessage | src/waconnection.cpp:361-364 | the message goes to the jid with the id, and its body child holds the UTF-8 text |
| ConnectionLogic.MessageNode | src/waconnection.cpp:1354-1364 | a "message" stanza to the jid with the id and the type, and neither children nor payload |
| ConnectionLogic.TextBody | src/waconnection.cpp:1335-1339 | a "body" node without attributes or children whose payload is the text in UTF-8, never shorter than the text |
| ConnectionLogic.InClear | src/waconnection.cpp:361 | a text goes to the end-to-end layer only when the jid is in the domain and not marked to skip encoding |
| ConnectionLogic.Calls | src/waconnection.cpp:1470-1479 | a run of read() calls takes at most one frame per call |
| ConnectionLogic.StuckGuardHolds | src/waconnection.cpp:1474-1479 | with the guard set, read() takes nothing and returns true, call after call |
| ConnectionLogic.AsWrittenStalls | src/waconnection.cpp:1474-1479 | read() as written, after a frame that fails to decode, returns false once and then returns true forever without taking a frame |
| ConnectionLogic.ReleasingDrains | src/waconnection.cpp:1470-1626 | read() that releases its guard takes one frame per call, returns true exactly for the frames that were handled, and leaves the guard free |
| Stanzas.ReceiptAck | src/waconnection.cpp:1066-1079 | the ack goes to the receipt's sender under its id, with its type, "delivery" when it has none |
| Stanzas.NotificationAck | src/waconnection.cpp:1102-1134 | the ack goes to the sender under the id and type; participant and addressee are echoed exactly when set; a contacts notification carries one sync child |
| Stanzas.IbFold | src/waconnection.cpp:1576-1590 | the id counter moves once per dirty child, and no reply is awaited |
| Stanzas.IbFoldSplits | src/waconnection.cpp:1576-1590 | over children in tag order, the dirty children are all handled before the offline ones |
| Stanzas.DirtyRun | src/waconnection.cpp:1580-1583 | each dirty child writes, while the socket is open, a clean request for its category under the next id |
| Stanzas.CleanDirtyNode | src/waconnection.cpp:1081-1100 | a set iq under the id to the domain in the urn:xmpp:whatsapp:dirty namespace, with one "clean" child per category, in order, each carrying its category as type |
| Stanzas.OfflineRun | src/waconnection.cpp:1585-1588 | each offline child signals its count read with toInt, and the counter stays |
| Stanzas.IbInTagOrder | src/waconnection.cpp:1576-1590 | the loop over the children visits every dirty child, newest first, and then every offline one, newest first |
| Stanzas.IbEffects | src/waconnection.cpp:1576-1590 | an ib stanza cleans every dirty child, newest first, under consecutive new ids, then signals every offline child's count, newest first; nothing else is written |
| Stanzas.DirtyThenOffline | src/waconnection.cpp:1576-1590 | a run of dirty children then a run of offline ones leaves the clean requests of the first, in order, followed by the count signals of the second |
| Stanzas.ContactsFold | src/waconnection.cpp:780-797 | without update children no id is taken and no reply awaited; nothing is bound on a closed socket |
| Stanzas.ContactUpdateAsks | src/waconnection.cpp:786-791 | an updated contact is asked for its last seen (unless a group), picture ids and status, each under its own new id bound to its handler |
| Stanzas.LastSeenRequest | src/waconnection.cpp:139-157 | nothing changes for a jid with a '-'; otherwise the counter moves on once and events are only added |
| Stanzas.PictureFold | src/waconnection.cpp:799-813 | one id per deleted picture, asked for again |
| Stanzas.EncryptOut | src/waconnection.cpp:909-918 | new pre-keys are uploaded exactly when a count child says ten or fewer |
| Stanzas.UnreadableCountUploads | src/waconnection.cpp:913-916 | a count that is not a number, once the white space around it is skipped and when it does not start with a sign, reads as 0 and so asks for new pre-keys |
| Stanzas.NotificationOut | src/waconnection.cpp:1549-1570 | a notification is acknowledged before anything else it causes |
| Stanzas.CallFold | src/waconnection.cpp:973-990 | every offer is announced and, on an open socket, rejected; ids and pending replies stay |
| Stanzas.CallReject | src/waconnection.cpp:1206-1222 | a "call" to the caller under the id, with one "reject" child naming the call id |
| Stanzas.MessageReceipt | src/waconnection.cpp:1019-1035 | the receipt goes to the message's sender under its id, with its participant exactly when it has one, and without a type |
| Stanzas.MessageRetry | src/waconnection.cpp:1037-1064 | the retry receipt goes to the sender under the message id with type "retry", a four-octet registration id 0 and a retry child with count 1 and the receipt's time |
| Stanzas.MessageOut | src/waconnection.cpp:1534-1540 | a message is handed to the parser and then, while the socket is open, answered with its receipt, or with a retry when it is encrypted text that did not decrypt (src/waconnection.cpp:1224-1317) |
| Stanzas.MessageAnswered | src/waconnection.cpp:1534-1540 | a message is acknowledged exactly when the socket is open and it is not undecrypted encrypted text, retried exactly in that case, and only encrypted text depends on the end-to-end outcome |
| Stanzas.StanzaOut | src/waconnection.cpp:1534-1609 | only an ib or a notification moves the counter or binds a reply; a notification is acknowledged first, a receipt last, and a message ends with its receipt or retry |
| Stanzas.AdvanceAfterNext | src/waconnection.cpp:992-995 | a counter moved once and then k times has moved k + 1 times |
| Connection.ReadableOnceKeyed | src/waconnection.cpp:49-55 | input that can be read before a key is set can still be read after one is set |
| Connection.FramesReadable | src/waconnection.cpp:49-55 | input the drain loop can read to the end is whole frames back to back |
| Connection.FrameCount | src/waconnection.cpp:49-55 | every frame takes at least three octets, and there are none exactly when no frame is available |
| Connection.MakeAuthBlob | src/waconnection.cpp:700-725 | the blob is AuthBlob; when it exists, two fresh streams are made, incoming from keys 2 and 3 at sequence 0 and outgoing from keys 0 and 1 at sequence 1 |
| Connection.SealBlob | src/waconnection.cpp:709-724 | the copied plain blob is encoded in place from offset 4, with the tag at 0, and the stream moves on by one frame |
| Connection.WAConnectionPrivate.constructor | src/waconnection.cpp:31-47 | a reader on the transport, both counters at zero, an empty table, no keys, not passive, and Disconnected announced |
| Connection.WAConnectionPrivate.MakeId | src/waconnection.cpp:992-995 | the counter is incremented first, wrapping at 2^32, and the id is its new value in hex |
| Connection.WAConnectionPrivate.MessageId | src/waconnection.cpp:997-1002 | the id is the session time and the counter before the increment; the counter moves on |
| Connection.WAConnectionPrivate.SendRequest | src/waconnection.cpp:611-617 | the outbox changes as Send says: the node is written exactly when the socket is open |
| Connection.WAConnectionPrivate.SendBoundRequest | src/waconnection.cpp:619-626 | the outbox changes as SendBound says: with the socket open the id is bound, then the node written |
| Connection.WAConnectionPrivate.SendIq | src/waconnection.cpp:122-137 | the outbox changes as Request says for an iq carrying one child |
| Connection.WAConnectionPrivate.SendPing | src/waconnection.cpp:122-137 | a ping iq to the domain, its reply bound to onPong |
| Connection.WAConnectionPrivate.SendGetLastSeen | src/waconnection.cpp:139-157 | nothing is sent for a jid with a '-'; otherwise a last-seen query bound to contactLastSeen |
| Connection.WAConnectionPrivate.SendGetStatuses | src/waconnection.cpp:159-187 | a status query listing the jids with an '@', bound to contactsStatuses |
| Connection.WAConnectionPrivate.SendGetPicture | src/waconnection.cpp:189-207 | a picture query for the jid, bound to contactPicture |
| Connection.WAConnectionPrivate.SendGetPictureIds | src/waconnection.cpp:209-235 | a picture-id query listing the jids with an '@', bound to contactsPicrureIds |
| Connection.WAConnectionPrivate.SendGetFeatures | src/waconnection.cpp:511-535 | a feature query listing the jids, bound to featureResponse |
| Connection.WAConnectionPrivate.SendGetGroups | src/waconnection.cpp:537-552 | a groups query of the given type, bound to groupsResponse |
| Connection.WAConnectionPrivate.SendGetBroadcasts | src/waconnection.cpp:554-568 | a broadcast-lists query, bound to broadcastsResponse |
| Connection.WAConnectionPrivate.SendPassive | src/waconnection.cpp:1150-1165 | a passive-mode iq of the given mode, bound to passiveResponse |
| Connection.WAConnectionPrivate.SendGetPrivacyList | src/waconnection.cpp:251-272 | a privacy-list query, bound to privacyList |
| Connection.WAConnectionPrivate.SendGetPushConfig | src/waconnection.cpp:323-338 | a push-configuration query, bound to pushConfig |
| Connection.WAConnectionPrivate.SendEncrypt | src/waconnection.cpp:1365-1438 | the pre-key upload takes the next id and is bound to encryptionReply |
| Connection.WAConnectionPrivate.SendSync | src/waconnection.cpp:421-509 | a sync iq whose node has the mode and context of the sync type, the numbers in Latin-1 (with their '+' variants) and the jids to delete, bound to syncResponse |
| Connection.WAConnectionPrivate.SyncContacts | src/waconnection.cpp:415-419 | a full registration sync when passive, an interactive delta sync otherwise, of the contact map's keys: every number once, ascending |
| Connection.WAConnectionPrivate.SendResult | src/waconnection.cpp:1137-1148 | the result for a server ping carries the ping's id and awaits no reply |
| Connection.WAConnectionPrivate.Login | src/waconnection.cpp:57-85 | ignored unless Disconnected; otherwise the credentials are stored, Connecting is announced and port 443 of one of the servers is connected to |
| Connection.WAConnectionPrivate.LoginInternal | src/waconnection.cpp:641-657 | Connecting is announced, then a connection to port 443 of the picked server |
| Connection.WAConnectionPrivate.Reconnect | src/waconnection.cpp:98-103 | loginInternal runs exactly when a user name is known; otherwise nothing changes |
| Connection.WAConnectionPrivate.Logout | src/waconnection.cpp:87-96 | the outbox changes as LoggedOut says for the current status, and a connected socket is left closing, out of ConnectedState |
| Connection.WAConnectionPrivate.GetAuthBlob | src/waconnection.cpp:700-725 | the blob exists exactly when the password is non-empty; then the connection and the reader hold two fresh streams made from the nonce, otherwise the old ones stay |
| Connection.WAConnectionPrivate.InstallKeys | src/waconnection.cpp:703-707 | the new streams replace the connection's, and the incoming one the reader's |
| Connection.WAConnectionPrivate.SendAuth | src/waconnection.cpp:678-698 | the outbox changes as AuthSent says; it throws exactly when a nonce is stored and the password is empty |
| Connection.WAConnectionPrivate.SendAuthBlob | src/waconnection.cpp:690-695 | with a nonce stored, the stanza carries its blob and the writer is ciphered; a blob that throws sends nothing |
| Connection.WAConnectionPrivate.SendResponse | src/waconnection.cpp:727-736 | the outbox changes as Respond says; it throws exactly when the password is empty, and otherwise installs fresh streams made from the challenge |
| Connection.WAConnectionPrivate.SendCiphered | src/waconnection.cpp:731-733 | the stanza is sent, then the writer is ciphered |
| Connection.WAConnectionPrivate.SocketConnected | src/waconnection.cpp:1628-1639 | the error is reset, the socket open, Connected announced, then the login stanzas written |
| Connection.WAConnectionPrivate.TryLogin | src/waconnection.cpp:628-639 | the stream start, the features and the auth stanza are written, in that order |
| Connection.WAConnectionPrivate.ParseSuccessNode | src/waconnection.cpp:738-778 | an expired account is signalled and logged out with the status, retry count, nonce and clock correction unchanged; otherwise the correction and the nonce are kept, retry is 0, the status is Initiaization or LoggedIn, and the outbox changes as Succeeded says |
| Connection.WAConnectionPrivate.RejectExpired | src/waconnection.cpp:742-747 | accountExpired is signalled with the account data, then the outbox changes as LoggedOut says, and a close is asked for when the socket is open |
| Connection.WAConnectionPrivate.AcceptSuccess | src/waconnection.cpp:755-777 | retry is 0, the status Initiaization or LoggedIn, and the outbox as Succeeded says |
| Connection.WAConnectionPrivate.SendFollowups | src/waconnection.cpp:763-777 | the follow-ups go out as Followups says and the status becomes Initiaization (passive) or LoggedIn |
| Connection.WAConnectionPrivate.SocketDisconnected | src/waconnection.cpp:1641-1675 | the reader and writer reset, both counters at zero, the socket closed, the nonce dropped after a remote close, and the reconnect state as AfterDisconnect says |
| Connection.WAConnectionPrivate.ApplyReconnectPolicy | src/waconnection.cpp:1651-1674 | the status, retry count, reconnect flag and timers change as AfterDisconnect says; the status is announced in every branch but the passive reconnect |
| Connection.WAConnectionPrivate.SocketError | src/waconnection.cpp:1677-1686 | the link changes as AfterSocketError says, and Disconnected is announced exactly for a network error |
| Connection.WAConnectionPrivate.CountDownToGroups | src/waconnection.cpp:1753-1759 | the countdown moves as ToGroups says, and a count reaching zero asks for the groups |
| Connection.WAConnectionPrivate.CountDownToNext | src/waconnection.cpp:1829-1840 | the countdown moves as ToNext says, and a count reaching zero asks for the groups or, once they are in, the broadcast lists |
| Connection.WAConnectionPrivate.ContactsStatuses | src/waconnection.cpp:1719-1760 | the passive countdown, asking for the groups at zero |
| Connection.WAConnectionPrivate.FeatureResponse | src/waconnection.cpp:2065-2074 | the passive countdown, asking for the groups at zero |
| Connection.WAConnectionPrivate.ContactPicture | src/waconnection.cpp:1762-1791 | the passive countdown, asking for the groups or the broadcast lists at zero |
| Connection.WAConnectionPrivate.ContactsPicrureIds | src/waconnection.cpp:1793-1841 | while passive, the pictures to fetch are added to the count; one picture request each; then the countdown |
| Connection.WAConnectionPrivate.PictureJids | src/waconnection.cpp:1800-1816 | the loop collects exactly PicturesToFetch |
| Connection.WAConnectionPrivate.SendGetPictures | src/waconnection.cpp:1821-1823 | one sendGetPicture per jid, in order, as RequestPictures says |
| Connection.WAConnectionPrivate.SyncResponse | src/waconnection.cpp:1843-1875 | the countdown as AfterSync says, and a feature query for the synced jids |
| Connection.WAConnectionPrivate.GroupsResponse | src/waconnection.cpp:1877-1925 | picture ids are asked for the listed groups' jids (one more reply while passive); then the countdown, asking for the broadcast lists at zero |
| Connection.WAConnectionPrivate.BroadcastsResponse | src/waconnection.cpp:1927-1960 | while passive, a ping and then the switch to active; otherwise nothing is sent |
| Connection.WAConnectionPrivate.PassiveResponse | src/waconnection.cpp:1962-1968 | passive mode ends with the count at 0, one reconnect becomes pending, and the connection logs out |
| Connection.WAConnectionPrivate.Invoke | src/waconnection.cpp:1486-1489 | onPong does nothing; a handler this model does not run is recorded as a Reply event |
| Connection.WAConnectionPrivate.Process | src/waconnection.cpp:1481-1618 | the route is by pending id, else by tag; a failure or stream error is signalled first; a "notify" attribute ends with the push-name event |
| Connection.WAConnectionPrivate.Deliver | src/waconnection.cpp:1486-1489 | the id leaves the table before the handler runs |
| Connection.WAConnectionPrivate.HandleTag | src/waconnection.cpp:1491-1609 | a stream error and a failure are signalled, a challenge stored and answered (throwing exactly on an empty password), and every other tag changes the outbox as StanzaOut says |
| Connection.WAConnectionPrivate.HandleSession | src/waconnection.cpp:1505-1533 | a stream error signalled; a challenge stored and answered; a failure marks authentication failed; a success parsed |
| Connection.WAConnectionPrivate.HandleStanza | src/waconnection.cpp:1534-1609 | the outbox changes as StanzaOut says for the stanza's tag, with the end-to-end outcome and the clock from the host |
| Connection.WAConnectionPrivate.HandleMessage | src/waconnection.cpp:1534-1540 | the outbox changes as MessageOut says |
| Connection.WAConnectionPrivate.SendMessageReceived | src/waconnection.cpp:1019-1035 | the message receipt is written when the socket is open |
| Connection.WAConnectionPrivate.SendMessageRetry | src/waconnection.cpp:1037-1064 | the retry receipt is written when the socket is open |
| Connection.WAConnectionPrivate.SendReceiptAck | src/waconnection.cpp:1066-1079 | the receipt's ack is written when the socket is open |
| Connection.WAConnectionPrivate.SendCleanDirty | src/waconnection.cpp:1081-1100 | the clean request takes the next id and is written when the socket is open, with no reply awaited |
| Connection.WAConnectionPrivate.HandleIb | src/waconnection.cpp:1576-1590 | the loop over the children in iteration order does what IbFold says |
| Connection.WAConnectionPrivate.SendNotificationReceived | src/waconnection.cpp:1102-1134 | the notification's ack is written when the socket is open |
| Connection.WAConnectionPrivate.HandleNotification | src/waconnection.cpp:1549-1570 | the outbox changes as NotificationOut says |
| Connection.WAConnectionPrivate.ParseContactsNotification | src/waconnection.cpp:780-797 | the loop over the children in iteration order does what ContactsFold says |
| Connection.WAConnectionPrivate.ParsePictureNotification | src/waconnection.cpp:799-813 | the loop over the children in iteration order does what PictureFold says |
| Connection.WAConnectionPrivate.ParseEncryptNotification | src/waconnection.cpp:909-918 | the outbox changes as EncryptOut says |
| Connection.WAConnectionPrivate.SendCallReject | src/waconnection.cpp:1206-1222 | the reject for the call id is written to the caller when the socket is open |
| Connection.WAConnectionPrivate.ParseCall | src/waconnection.cpp:973-990 | the loop over the children in iteration order does what CallFold says |
| Connection.WAConnectionPrivate.Read | src/waconnection.cpp:1470-1626 | with the guard set, true and nothing changes; otherwise one frame is taken and the guard is released only after a handled stanza |
| Connection.WAConnectionPrivate.ReadReleasing | src/waconnection.cpp:1470-1626 | as read(), but the guard is released however the read ends |
| Connection.WAConnectionPrivate.ReadNode | src/waconnection.cpp:49-55 | with the releasing read, frames are taken one per call while the socket is in ConnectedState and octets are pending; the loop ends only once a read threw, the socket left ConnectedState (a logout or a fatal decoding failure), or every pending frame was taken; none is taken outside ConnectedState; the guard ends free |
| Connection.WAConnectionPrivate.InConnectedState | src/waconnection.cpp:51 | in ConnectedState the socket is open and the reader not broken |
| Connection.WAConnectionPrivate.SendText | src/waconnection.cpp:354-390 | nothing before LoggedIn; the id is given or from messageId; clear text is bound to messageSent and signalled with the corrected time; anything else goes to the end-to-end layer |
| Connection.WAConnectionPrivate.SendClearText | src/waconnection.cpp:361-364 | the message with its body is bound to messageSent, then the sent signal with the server time |

## Left out

- Socket I/O. The transport is an input octet sequence that already holds what has arrived. `fillArrayFromRawStream` and `readRawInt16/24` (src/bintreenodereader.cpp:260-301, 421-446) block until enough octets arrive. Here, a read whose frame has not fully arrived is excluded by a precondition. The `waitForReadyRead(-1)` wait and the unused `READ_TIMEOUT` are not modelled.
- The writer (`BinTreeNodeWriter`) is not part of this model. Stanzas written, the stream start and end, `setCrypto(true)` and the writer's reset are events. Without a writer there is no encode/decode round trip for whole trees. TreeDecoding.ElementRoundTrip and TreeDecoding.PayloadRoundTrip read back an element whose octets are written out in the model (an 8-bit list size, a literal tag, literal pairs and a literal payload); they do not cover dictionary tokens, JIDs or children on the writing side.
- SHA-1, RC4 and the token dictionary are parameters, as described above. `watokendictionary.h` is an interface only, and its table is not part of this model.
- End-to-end encryption (axolotl) is not modelled.
  - The encrypted branch of `sendText` (src/waconnection.cpp:365-386) becomes one `ToEndToEnd` event.
  - `sendEncrypt` (src/waconnection.cpp:1365-1438) is modelled only as its request id and handler. The keys it uploads are random and come from a library that is not part of this model.
  - Also left out: the decryption in `parseEncryptedMessage`, `parsePreKeyWhisperMessage` and `parseWhisperMessage` (only its outcome is modelled, see below), `getSessionCipher`, `getKeysReponse`, `sendGetEncryptKeys`, `pendingMessages`, `cipherHash`, and the store's `countPreKeys`, which is taken from the `Host` value.
- Stanza bodies handed to parsers that only signal: `parseMessage` (whose answer, the receipt, is modelled), `parseReceipt`, `parsePresence`, `parseChatstate`, and the group (`w:gp2`) and `status` notification parsers. Each stanza becomes one `Handed` event. The ib stanza, the contacts, picture and encrypt notifications and calls are modelled with their requests and ids (Stanzas).
- Whether the end-to-end layer decrypts an encrypted text message (src/waconnection.cpp:1269-1317) is the `decrypted` field of the `Host` value. The decrypted text and its signal are not modelled; the outcome only decides whether the message is answered with its receipt or with a retry receipt (Stanzas.MessageAnswered).
- `sendCallReceipt` and `sendCallAck` have their bodies commented out in the source, so a call writes only its rejects.
- Replies to `contactLastSeen`, `privacyList`, `pushConfig`, `messageSent`, `encryptionReply` and `connectionServerProperties` become a `Reply` event. Their bodies only emit signals, except `encryptionReply`, which clears the pre-key store (not modelled) and logs out.
- The signals the passive handlers emit with their results (`contactsStatuses`, `contactPicture`, `contactsPictureIds`, `contactsSynced`, `groupsReceived`, `broadcastsReceived`) are not recorded. The countdown and the requests are.
- The `syncing` map that `syncResponse` reads its values from is not modelled, only its keys.
- Request builders that are not modelled: `sendGetProperties`, `sendPresenceRequest`, `sendSetPrivacyList`, `sendSetPresence`, `sendBroadcastText`, `sendMessageRead`, `sendRetryMessage`, `sendSetStatusMessage`, `sendTyping`, `getEncryptionStatus` and `sendClientConfig`. They build a tree and call sendRequest, and the model has that step once, in SendIq and Request. The unavailable presence `logout` sends is a fixed node.
- `JID_DOMAIN` comes from a build header that is not part of this model, so it is the constructor's `jidDomain` parameter.
- The clock, the random server pick (src/waconnection.cpp:651-653) and the sync UUID are parameters.
- The `QWriteLocker` in `messageId` is not modelled (there is no concurrency here).
- Connecting and disconnecting Qt signals and slots is not modelled.
- The Qt 5 branches of `qtrfc2898.cpp` are not modelled; the Qt 4 code is.
- `login()`'s base64 decoding of the password and nonce happens before the `LoginData` value is built. The `database`, `encryptionav`, `userAgent`, `mcc` and `mnc` entries are not modelled.
- Connection.WAConnectionPrivate.Read and Connection.WAConnectionPrivate.ReadReleasing: require that, when the guard is free, a whole frame has arrived and a ciphered frame has an incoming key. The source blocks until the frame arrives. It dereferences a null key in the other case. The contracts state the guard and the frame taken. What the stanza does is stated by Process.
- Connection.WAConnectionPrivate.ReadNode: states how many frames the loop takes, why it stops and the guard it leaves. It does not state the effect of each stanza, which Process and HandleTag state.
- ConnectedState is modelled as the socket being open, no logout having asked it to close and the reader not having given up (`harakiri`). `harakiri` also detaches every signal from the socket, so no reconnect policy runs after it; that detaching is not modelled, since the model runs no slot on its own.
- The socket counts as open once it is connected (`socketConnected`, src/waconnection.cpp:1628-1639). A Qt socket's `isOpen()`, which src/waconnection.cpp:613 and 621 test before writing, is already true while it is still connecting, so a request made between `connectToHost` and `connected()` is written and its reply bound in the source but dropped by the model.
- Bytes.IsSpace: lists the space, line and paragraph separators of Unicode 5.0. Qt's character tables are not part of this model, so a Qt built with another Unicode version may differ on U+180E.
- Connection.WAConnectionPrivate.SyncContacts: takes the numbers put into the contact map; the map's values are not modelled, only its keys.
- Connection.WAConnectionPrivate.Process: states the route, the first event of a stream error or failure, and the final push-name event. It does not state every handler's effect, which is left to Invoke and HandleTag.
- Connection.WAConnectionPrivate.Invoke: states only the onPong case and the handlers it does not run. The handlers it runs have their own contracts.
- Connection.WAConnectionPrivate.Deliver: states the table and the events only for a handler it does not run.
- Connection.WAConnectionPrivate.Login, Connection.WAConnectionPrivate.LoginInternal and Connection.WAConnectionPrivate.Reconnect: require a non-empty server list when they connect. On an empty list the source's `qrand() % m_servers.size()` divides by zero.
- TreeReader.BinTreeNodeReader.DecodeRawStream, TreeReader.BinTreeNodeReader.GetOneToplevelStream and TreeReader.BinTreeNodeReader.NextTree: require an incoming key for a ciphered frame. The source dereferences a null key otherwise.
- ProtocolTree.DataString: gives one character per octet, whereas the source decodes UTF-8. The two agree on ASCII payloads.
- TreeDecoding.ReadAttributes and TreeDecoding.NextTreeInternal: turn decoded tags, keys and values into text one character per octet, whereas the source decodes UTF-8. The two agree on ASCII.
- ProtocolTree.RenderChildren and ProtocolTree.Render: render the children in insertion order. The source iterates its child collection, in the order ProtocolTree.Iteration gives (tags ascending, newest first under one tag). The debug rendering is the only place that order is not followed.
- ProtocolTree.ProtocolTreeNode.constructor: gives a size of 0. The source leaves the `int size` field uninitialised (src/protocoltreenode.cpp:34-37).
- Connection.WAConnectionPrivate.constructor: takes the initial retry count as a parameter. The source leaves `retry` uninitialised until the first successful login.

## Findings

| source | as written | input that shows it | evidently intended | confidence | as-written member | corrected member |
|---|---|---|---|---|---|---|
| src/waconnection.cpp:1474-1479, 1620-1625 | `read()` sets `m_isReading` and clears it only after `nextTree` succeeded, so one failed frame leaves the guard set. Every later `read()` then returns true at once without taking a frame, and `readNode`'s loop turns without end while octets are pending. | an empty plain frame `00 00 00` followed by any further octets: the tree's first `readInt8` fails (src/bintreenodereader.cpp:132-135) without `harakiri`, so the socket stays in ConnectedState. A ciphered frame whose tag does not match also leaves the guard set, but its `harakiri` ends this loop; the guard then blocks reading after the next reconnect | the guard is released however the read ends | not executed | ConnectionLogic.AsWrittenStalls, ConnectionLogic.StuckGuardHolds, Connection.WAConnectionPrivate.Read | ConnectionLogic.ReleasingDrains, Connection.WAConnectionPrivate.ReadReleasing, Connection.WAConnectionPrivate.ReadNode |
