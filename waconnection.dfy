// WAConnectionPrivate: the connection's state and the methods that change
// it. Each method is tied to the functions of ConnectionLogic: a request
// changes the outbox (socket state, id counter, pending-reply table and
// event log) as Request says, a disconnect changes the reconnect state as
// AfterDisconnect says, a passive handler moves the countdown as its Tick
// says. The socket, the writer and the clock are not objects here: writes
// and signals are events, the clock and the pre-key store are read from a
// Host value the caller passes in.
module Connection {
  import opened Bytes
  import opened Wrappers
  import opened Hmac
  import opened ProtocolTree
  import opened TreeReader
  import opened KeyStreams
  import opened ConnectionLogic
  import opened OrderedKeys
  import opened Stanzas
  import TreeDecoding

  /** login()'s map, with the password and nonce already base64-decoded. */
  datatype LoginData = LoginData(login: string, password: bytes, resource: string, nextChallenge: bytes,
                                 servers: seq<string>, passive: bool)

  /**
   * What the connection reads from outside: the clock in milliseconds and
   * in seconds, whether the pre-key store is empty, and whether the
   * end-to-end layer decrypts the encrypted message being read.
   */
  datatype Host = Host(nowMs: nat, now: uint32, noPreKeys: bool, decrypted: bool)

  /** The reply handlers this model runs; a reply bound to any other member is recorded as a Reply event. */
  const Handlers: set<string> :=
    {"contactsStatuses", "featureResponse", "contactPicture", "contactsPicrureIds", "syncResponse",
     "groupsResponse", "broadcastsResponse", "passiveResponse", "onPong"}

  /** Whole frames back to back, where every ciphered frame finds a key once one is set. */
  predicate FramesReadable(input: bytes, keyed: bool)
    ensures FramesReadable(input, keyed) ==> WholeFrames(input)
    decreases |input|
  {
    |input| == 0 ||
    (FrameAvailable(input) && (Encrypted(TreeDecoding.HeaderFlags(FrameHeader(input))) ==> keyed)
     && FramesReadable(AfterFrame(input), keyed))
  }

  /** Input that can be read before a key is set can be read after. */
  lemma {:induction false} ReadableOnceKeyed(input: bytes, a: bool, b: bool)
    requires FramesReadable(input, a) && (a ==> b)
    ensures FramesReadable(input, b)
    decreases |input|
  {
    if |input| > 0 {
      ReadableOnceKeyed(AfterFrame(input), a, b);
    }
  }

  /** The input after n frames were taken from its front, as long as whole frames stand there. */
  function AfterFrames(input: bytes, n: nat): bytes
    decreases n
  {
    if n == 0 then input
    else
      var rest := AfterFrames(input, n - 1);
      if FrameAvailable(rest) then AfterFrame(rest) else rest
  }

  /** How many whole frames stand at the front of the input. */
  function FrameCount(input: bytes): (r: nat)
    ensures 3 * r <= |input|
    ensures r == 0 <==> !FrameAvailable(input)
    decreases |input|
  {
    if FrameAvailable(input) then 1 + FrameCount(AfterFrame(input)) else 0
  }

  /** Taking the front frame of readable input: it is whole, the rest stays readable, and one frame fewer stands. */
  lemma FrameTaken(input: bytes, keyed: bool)
    requires FramesReadable(input, keyed) && |input| > 0
    ensures FrameAvailable(input) && (Encrypted(TreeDecoding.HeaderFlags(FrameHeader(input))) ==> keyed)
    ensures FramesReadable(AfterFrame(input), keyed)
    ensures FrameCount(input) == 1 + FrameCount(AfterFrame(input))
  {
  }

  /** No frame stands in empty input. */
  lemma NoFrameLeft(input: bytes)
    requires input == []
    ensures FrameCount(input) == 0
  {
  }

  /**
   * The streams getAuthBlob makes: incoming from keys 2 and 3, outgoing
   * from keys 0 and 1, both on the given hash.
   */
  ghost predicate StreamsFor(sha1: Sha1, rc4: Rc4, password: bytes, nonce: bytes, inKey: KeyStream, outKey: KeyStream)
  {
    var keys := SessionKeys(sha1, password, nonce);
    && keys.Success?
    && inKey.sha1 == sha1 && inKey.stream == rc4(keys.value[2]) && inKey.macKey == keys.value[3]
    && outKey.sha1 == sha1 && outKey.stream == rc4(keys.value[0]) && outKey.macKey == keys.value[1]
  }

  /**
   * getAuthBlob: the four session keys from the password and nonce, a
   * fresh stream each way, and the plain blob encoded by the outgoing one.
   * The key derivation fails for an empty password.
   */
  method MakeAuthBlob(sha1: Sha1, rc4: Rc4, password: bytes, username: string, nonce: bytes, nowMs: nat)
    returns (blob: Result<bytes>, inKey: KeyStream?, outKey: KeyStream?)
    ensures blob == AuthBlob(sha1, rc4, password, username, nonce, nowMs)
    ensures blob.Success? ==> fresh(inKey) && fresh(outKey) && inKey != null && outKey != null
    ensures blob.Success? ==> StreamsFor(sha1, rc4, password, nonce, inKey, outKey)
    ensures blob.Success? ==> inKey.pos == Drop && inKey.seqNo == 0 && outKey.pos == Drop + |blob.value| - 4 && outKey.seqNo == 1
  {
    var keys := KeyFromPasswordAndNonce(sha1, password, nonce);
    if keys.Failure? {
      return Failure(keys.error), null, null;
    }
    var k := keys.value;
    outKey := new KeyStream(rc4, sha1, k[0], k[1]);
    inKey := new KeyStream(rc4, sha1, k[2], k[3]);
    var sealed := SealBlob(outKey, AuthPlain(username, nonce, nowMs));
    blob := Success(sealed);
  }

  /** The plain blob copied to a buffer and encoded in place, its tag at the front. */
  method SealBlob(outKey: KeyStream, plain: bytes) returns (sealed: bytes)
    requires |plain| >= 4
    modifies outKey`pos, outKey`seqNo
    ensures sealed == Encoded(outKey.stream, old(outKey.pos), outKey.sha1, outKey.macKey, old(outKey.seqNo), plain, 0, 4, |plain| - 4)
    ensures outKey.pos == old(outKey.pos) + |plain| - 4 && outKey.seqNo == old(outKey.seqNo) + 1
  {
    var list := new byte[|plain|](i requires 0 <= i < |plain| => plain[i]);
    assert list[..] == plain;
    outKey.EncodeMessage(list, 0, 4, list.Length - 4);
    sealed := list[..];
  }

  class WAConnectionPrivate {
    const sha1: Sha1
    const rc4: Rc4
    /** The JID_DOMAIN the build defines. */
    const jidDomain: string
    /** init's clock reading in seconds, the first half of every message id. */
    const sessionTime: nat
    /** The stanza reader on the socket's input. */
    const reader: BinTreeNodeReader

    var status: Status
    /**
     * Whether the socket is connected: from socketConnected to
     * socketDisconnected. Qt's isOpen() holds from connectToHost on; the
     * model has no socket before it connects.
     */
    var socketOpen: bool
    /** logout asked the connected socket to disconnect: it has left ConnectedState, disconnected() is still to come. */
    var closing: bool
    var lastError: SocketError
    var iqid: uint32
    var mseq: uint32
    /** m_bindStore: reply id to the handler that waits for it. */
    var bindStore: map<string, string>
    /** Everything observable so far: stanzas written, signals, calls on the writer and the socket. */
    var events: seq<Event>
    /** The delays of the reconnects scheduled so far, in milliseconds. */
    var timers: seq<int>
    var isReading: bool
    var passive: bool
    var passiveCount: int
    var passiveGroups: bool
    var passiveReconnect: bool
    var authFailed: bool
    var retry: int
    var username: string
    var password: bytes
    var resource: string
    var domain: string
    var servers: seq<string>
    var nextChallenge: bytes
    var serverTimeCorrection: uint32
    var skipEncodingJids: set<string>
    var inputKey: KeyStream?
    var outputKey: KeyStream?

    function Out(): Outbox
      reads this`socketOpen, this`iqid, this`bindStore, this`events
    {
      Outbox(socketOpen, iqid, bindStore, events)
    }

    function LinkState(): Link
      reads this`status, this`retry, this`authFailed, this`passiveReconnect, this`lastError, this`timers
    {
      Link(status, retry, authFailed, passiveReconnect, lastError, timers)
    }

    function PassiveState(): Countdown
      reads this`passive, this`passiveCount, this`passiveGroups
    {
      Countdown(passive, passiveCount, passiveGroups)
    }

    /** The authentication blob for a nonce, from this connection's credentials. */
    function Blob(nonce: bytes, nowMs: nat): Result<bytes>
      reads this`password, this`username
    {
      AuthBlob(sha1, rc4, password, username, nonce, nowMs)
    }

    /**
     * The constructor and init: a reader on the transport, the counters
     * at zero, no keys, and the Disconnected status announced. The source
     * leaves retry unset until the first login succeeds; here it is given.
     */
    constructor (dict: TreeDecoding.Dictionary, transport: bytes, sha1: Sha1, rc4: Rc4, jidDomain: string,
                 sessionTime: nat, retry: int)
      ensures this.sha1 == sha1 && this.rc4 == rc4 && this.jidDomain == jidDomain && this.sessionTime == sessionTime
      ensures fresh(reader) && reader.input == transport && reader.inputKey == null
      ensures Out() == Outbox(false, 0, map[], [StatusChanged(Disconnected)])
      ensures LinkState() == Link(Disconnected, retry, false, false, UnknownSocketError, [])
      ensures PassiveState() == Countdown(false, 0, false)
      ensures mseq == 0 && !isReading && !closing && inputKey == null && outputKey == null
      ensures username == "" && password == [] && resource == "" && domain == "" && servers == []
      ensures nextChallenge == [] && skipEncodingJids == {}
    {
      this.sha1 := sha1;
      this.rc4 := rc4;
      this.jidDomain := jidDomain;
      this.sessionTime := sessionTime;
      reader := new BinTreeNodeReader(dict, transport);
      status, socketOpen, lastError := Disconnected, false, UnknownSocketError;
      iqid, mseq, bindStore := 0, 0, map[];
      timers := [];
      isReading, closing, passive, passiveCount, passiveGroups := false, false, false, 0, false;
      passiveReconnect, authFailed := false, false;
      this.retry := retry;
      username, password, resource, domain, servers := "", [], "", "", [];
      nextChallenge, serverTimeCorrection, skipEncodingJids := [], 0, {};
      inputKey, outputKey := null, null;
      events := [StatusChanged(Disconnected)];
    }

    // -------------------------------------------------------------------
    // Ids, signals and writes.
    // -------------------------------------------------------------------

    /** makeId: the counter is incremented first, and its new value in hex is the id. */
    method MakeId() returns (id: string)
      modifies this`iqid
      ensures iqid == Next32(old(iqid)) && id == IdAt(old(iqid), 1)
    {
      iqid := Next32(iqid);
      id := Number(iqid, 16);
    }

    /** messageId: the session time and the counter's value before the increment. */
    method MessageId() returns (id: string)
      modifies this`mseq
      ensures id == MessageIdOf(sessionTime, old(mseq)) && mseq == Next32(old(mseq))
    {
      id := Number(sessionTime, 10) + "-" + Number(mseq, 16);
      mseq := Next32(mseq);
    }

    method Signal(e: Event)
      modifies this`events
      ensures events == old(events) + [e]
    {
      events := events + [e];
    }

    /** sendRequest(node). */
    method SendRequest(node: Node)
      modifies this`events
      ensures Out() == Send(old(Out()), node)
    {
      if socketOpen {
        Signal(Wrote(node));
      }
    }

    /** sendRequest(node, member). */
    method SendBoundRequest(node: Node, member: string)
      modifies this`bindStore, this`events
      ensures Out() == SendBound(old(Out()), node, member)
    {
      if socketOpen {
        bindStore := bindStore[AttributeValue(node, "id") := member];
        SendRequest(node);
      }
    }

    /** The shape every iq request shares: an id from makeId, one child, the reply bound to member. */
    method SendIq(attrs: Attributes, child: Node, member: string)
      modifies this`iqid, this`bindStore, this`events
      ensures Out() == Request(old(Out()), attrs, child, member)
    {
      var id := MakeId();
      SendBoundRequest(IqNode(attrs, id, child), member);
    }

    // -------------------------------------------------------------------
    // Requests.
    // -------------------------------------------------------------------

    method SendPing()
      modifies this`iqid, this`bindStore, this`events
      ensures Out() == Request(old(Out()), PingQuery(domain), Child("ping"), "onPong")
    {
      SendIq(PingQuery(domain), Child("ping"), "onPong");
    }

    /** sendGetLastSeen: nothing is asked for a jid with a '-' (a group). */
    method SendGetLastSeen(jid: string)
      modifies this`iqid, this`bindStore, this`events
      ensures Contains(jid, "-") ==> Out() == old(Out())
      ensures !Contains(jid, "-") ==> Out() == Request(old(Out()), LastSeenQuery(jid), Child("query"), "contactLastSeen")
    {
      if Contains(jid, "-") {
        return;
      }
      SendIq(LastSeenQuery(jid), Child("query"), "contactLastSeen");
    }

    method SendGetStatuses(jids: seq<string>)
      modifies this`iqid, this`bindStore, this`events
      ensures Out() == Request(old(Out()), StatusesQuery(domain), StatusList(jids), "contactsStatuses")
    {
      SendIq(StatusesQuery(domain), StatusList(jids), "contactsStatuses");
    }

    method SendGetPicture(jid: string)
      modifies this`iqid, this`bindStore, this`events
      ensures Out() == Request(old(Out()), PictureQuery(jid), PictureChild, "contactPicture")
    {
      SendIq(PictureQuery(jid), PictureChild, "contactPicture");
    }

    method SendGetPictureIds(jids: seq<string>)
      modifies this`iqid, this`bindStore, this`events
      ensures Out() == Request(old(Out()), PictureIdsQuery(domain), PictureIdsList(jids), "contactsPicrureIds")
    {
      SendIq(PictureIdsQuery(domain), PictureIdsList(jids), "contactsPicrureIds");
    }

    method SendGetFeatures(jids: seq<string>)
      modifies this`iqid, this`bindStore, this`events
      ensures Out() == Request(old(Out()), FeaturesQuery(domain), FeatureList(jids), "featureResponse")
    {
      SendIq(FeaturesQuery(domain), FeatureList(jids), "featureResponse");
    }

    method SendGetGroups(groupType: string)
      modifies this`iqid, this`bindStore, this`events
      ensures Out() == Request(old(Out()), GroupsQuery, Child(groupType), "groupsResponse")
    {
      SendIq(GroupsQuery, Child(groupType), "groupsResponse");
    }

    method SendGetBroadcasts()
      modifies this`iqid, this`bindStore, this`events
      ensures Out() == Request(old(Out()), BroadcastsQuery(domain), Child("lists"), "broadcastsResponse")
    {
      SendIq(BroadcastsQuery(domain), Child("lists"), "broadcastsResponse");
    }

    method SendPassive(mode: string)
      modifies this`iqid, this`bindStore, this`events
      ensures Out() == Request(old(Out()), PassiveQuery(domain), Child(mode), "passiveResponse")
    {
      SendIq(PassiveQuery(domain), Child(mode), "passiveResponse");
    }

    method SendGetPrivacyList()
      modifies this`iqid, this`bindStore, this`events
      ensures Out() == Request(old(Out()), PrivacyQuery, PrivacyChild, "privacyList")
    {
      SendIq(PrivacyQuery, PrivacyChild, "privacyList");
    }

    method SendGetPushConfig()
      modifies this`iqid, this`bindStore, this`events
      ensures Out() == Request(old(Out()), PushConfigQuery(domain), Child("config"), "pushConfig")
    {
      SendIq(PushConfigQuery(domain), Child("config"), "pushConfig");
    }

    /** sendEncrypt: the pre-key upload, bound to encryptionReply; the keys themselves are not modelled. */
    method SendEncrypt()
      modifies this`iqid, this`bindStore, this`events
      ensures Out() == EncryptRequest(old(Out()))
    {
      var id := MakeId();
      if socketOpen {
        bindStore := bindStore[id := "encryptionReply"];
        Signal(PreKeysSent(id));
      }
    }

    /** sendSync: the mode and context from the sync type, the numbers and the jids to delete; the UUID is given. */
    method SendSync(numbers: seq<string>, deleteJids: seq<string>, syncType: int, index: nat, last: bool, uuid: string)
      modifies this`iqid, this`bindStore, this`events
      ensures Out() == Request(old(Out()), SyncQuery, SyncNode(numbers, deleteJids, syncType, index, last, uuid), "syncResponse")
    {
      SendIq(SyncQuery, SyncNode(numbers, deleteJids, syncType, index, last, uuid), "syncResponse");
    }

    /**
     * syncContacts: a full registration sync when passive, else an
     * interactive delta, of the contact map's keys. The map is given by the
     * numbers put into it, so its keys() are those numbers ascending, once each.
     */
    method SyncContacts(numbers: seq<string>, uuid: string)
      modifies this`iqid, this`bindStore, this`events
      ensures var mode := SyncMode(SyncContactsType(passive));
              && mode == (if passive then ("full", "registration") else ("delta", "interactive"))
              && Out() == Request(old(Out()), SyncQuery, SyncNode(Keys(numbers), [], SyncContactsType(passive), 0, true, uuid), "syncResponse")
      ensures Ascending(Keys(numbers)) && forall n :: n in Keys(numbers) <==> n in numbers
      ensures forall i, j :: 0 <= i < j < |Keys(numbers)| ==> Keys(numbers)[i] != Keys(numbers)[j]
    {
      KeysAscending(numbers);
      SendSync(Keys(numbers), [], SyncContactsType(passive), 0, true, uuid);
    }

    /** sendResult: the answer to a server ping, carrying the ping's id; no reply is awaited. */
    method SendResult(id: string)
      modifies this`events
      ensures Out() == Send(old(Out()), ResultNode(id, domain))
    {
      SendRequest(ResultNode(id, domain));
    }

    // -------------------------------------------------------------------
    // Login and logout.
    // -------------------------------------------------------------------

    /** login: ignored unless Disconnected; otherwise the credentials are stored and loginInternal runs. */
    method Login(data: LoginData, pick: nat)
      requires status == Disconnected ==> |data.servers| > 0
      modifies this`username, this`password, this`resource, this`nextChallenge, this`servers, this`passive,
               this`domain, this`status, this`events
      ensures old(status) != Disconnected ==> unchanged(this)
      ensures old(status) == Disconnected ==>
                && domain == jidDomain && username == data.login && password == data.password
                && resource == data.resource && nextChallenge == data.nextChallenge
                && servers == data.servers && passive == data.passive && status == Connecting
                && events == old(events) + [StatusChanged(Connecting), ConnectTo(data.servers[pick % |data.servers|], 443)]
    {
      if Rank(status) > Rank(Disconnected) {
        return;
      }
      domain := jidDomain;
      username := data.login;
      password := data.password;
      resource := data.resource;
      nextChallenge := data.nextChallenge;
      servers := data.servers;
      passive := data.passive;
      LoginInternal(pick);
    }

    /** loginInternal: Connecting is announced and a connection to a server on port 443 is opened; the server index is given. */
    method LoginInternal(pick: nat)
      requires |servers| > 0
      modifies this`status, this`events
      ensures status == Connecting
      ensures events == old(events) + [StatusChanged(Connecting), ConnectTo(servers[pick % |servers|], 443)]
    {
      status := Connecting;
      Signal(StatusChanged(status));
      Signal(ConnectTo(servers[pick % |servers|], 443));
    }

    /** reconnect: loginInternal again, once a user name is known. */
    method Reconnect(pick: nat)
      requires |username| > 0 ==> |servers| > 0
      modifies this`status, this`events
      ensures |username| == 0 ==> status == old(status) && events == old(events)
      ensures |username| > 0 ==>
                status == Connecting
                && events == old(events) + [StatusChanged(Connecting), ConnectTo(servers[pick % |servers|], 443)]
    {
      if |username| > 0 {
        LoginInternal(pick);
      }
    }

    /** logout: the unavailable presence and the stream end once past Initiaization; then a connected socket is asked to disconnect. */
    method Logout()
      modifies this`events, this`closing
      ensures Out() == LoggedOut(old(Out()), status)
      ensures closing == (old(closing) || socketOpen)
    {
      if Rank(status) >= Rank(Initiaization) {
        SendRequest(Unavailable);
        Signal(StreamEnded);
      }
      if socketOpen {
        Signal(DisconnectFromHost);
        closing := true;
      }
    }

    /** getAuthBlob on this connection's credentials: the streams it makes become the connection's, and the reader's. */
    method GetAuthBlob(nonce: bytes, nowMs: nat) returns (blob: Result<bytes>)
      modifies this`inputKey, this`outputKey, reader`inputKey
      ensures blob == old(Blob(nonce, nowMs))
      ensures blob.Success? <==> |old(password)| > 0
      ensures blob.Failure? ==> inputKey == old(inputKey) && outputKey == old(outputKey) && reader.inputKey == old(reader.inputKey)
      ensures blob.Success? ==> fresh(inputKey) && fresh(outputKey) && reader.inputKey == inputKey
      ensures blob.Success? ==> inputKey != null && outputKey != null && StreamsFor(sha1, rc4, old(password), nonce, inputKey, outputKey)
      ensures blob.Success? ==>
                inputKey.pos == Drop && inputKey.seqNo == 0 && outputKey.pos == Drop + |blob.value| - 4 && outputKey.seqNo == 1
    {
      var inKey, outKey;
      blob, inKey, outKey := MakeAuthBlob(sha1, rc4, password, username, nonce, nowMs);
      if blob.Success? {
        InstallKeys(inKey, outKey);
      }
    }

    /** The new streams replace the old ones, the incoming one in the reader too. */
    method InstallKeys(inKey: KeyStream, outKey: KeyStream)
      modifies this`inputKey, this`outputKey, reader`inputKey
      ensures inputKey == inKey && outputKey == outKey && reader.inputKey == inKey
    {
      inputKey, outputKey := inKey, outKey;
      reader.SetInputKey(inKey);
    }

    /** sendAuth: the auth stanza, with the blob when a nonce is stored, and then the writer ciphered. */
    method SendAuth(host: Host) returns (threw: bool)
      modifies this`events, this`inputKey, this`outputKey, reader`inputKey
      ensures Out() == AuthSent(old(Out()), passive, username, nextChallenge, old(Blob(nextChallenge, host.nowMs)))
      ensures threw <==> |nextChallenge| > 0 && old(Blob(nextChallenge, host.nowMs)).Failure?
    {
      hide Blob;
      if |nextChallenge| == 0 {
        SendRequest(AuthNode(passive, username, []));
        return false;
      }
      threw := SendAuthBlob(host);
    }

    /** sendAuth with a nonce stored: the blob for it, carried by the stanza. */
    method SendAuthBlob(host: Host) returns (threw: bool)
      requires |nextChallenge| > 0
      modifies this`events, this`inputKey, this`outputKey, reader`inputKey
      ensures Out() == old(AuthSent(Out(), passive, username, nextChallenge, Blob(nextChallenge, host.nowMs)))
      ensures threw <==> old(Blob(nextChallenge, host.nowMs)).Failure?
    {
      hide Blob;
      var blob := GetAuthBlob(nextChallenge, host.nowMs);
      threw := blob.Failure?;
      if !threw {
        SendCiphered(AuthNode(passive, username, blob.value));
      }
    }

    /** sendResponse: the blob for the server's challenge, then the writer ciphered. */
    method SendResponse(challenge: bytes, host: Host) returns (threw: bool)
      modifies this`events, this`inputKey, this`outputKey, reader`inputKey
      ensures Out() == Respond(old(Out()), old(Blob(challenge, host.nowMs)))
      ensures threw <==> old(Blob(challenge, host.nowMs)).Failure?
      ensures threw <==> |password| == 0
      ensures threw ==> inputKey == old(inputKey) && outputKey == old(outputKey) && reader.inputKey == old(reader.inputKey)
      ensures !threw ==> fresh(inputKey) && fresh(outputKey) && reader.inputKey == inputKey
      ensures !threw ==> inputKey != null && outputKey != null && StreamsFor(sha1, rc4, password, challenge, inputKey, outputKey)
    {
      hide Blob, StreamsFor;
      var blob := GetAuthBlob(challenge, host.nowMs);
      threw := blob.Failure?;
      if !threw {
        SendCiphered(Node("response", map[], blob.value, [], 0));
      }
    }

    /** A stanza carrying a blob, after which the writer ciphers everything. */
    method SendCiphered(node: Node)
      modifies this`events
      ensures Out() == Emit(Send(old(Out()), node), CryptoEnabled)
    {
      SendRequest(node);
      Signal(CryptoEnabled);
    }

    /** socketConnected: Connected is announced, then tryLogin. */
    method SocketConnected(host: Host) returns (threw: bool)
      modifies this`lastError, this`socketOpen, this`closing, this`status, this`events, this`inputKey, this`outputKey, reader`inputKey
      ensures lastError == UnknownSocketError && socketOpen && !closing && status == Connected
      ensures Out() == old(LoginStanzas(Emit(Out().(open := true), StatusChanged(Connected)), host))
      ensures threw <==> old(|nextChallenge| > 0 && Blob(nextChallenge, host.nowMs).Failure?)
    {
      hide Blob, LoginStanzas;
      lastError, socketOpen, closing, status := UnknownSocketError, true, false, Connected;
      Signal(StatusChanged(status));
      threw := TryLogin(host);
    }

    /** What tryLogin writes after the given outbox: the stream start, the features and the auth stanza. */
    ghost function LoginStanzas(o: Outbox, host: Host): Outbox
      reads this`domain, this`resource, this`passive, this`username, this`password, this`nextChallenge
    {
      AuthSent(Send(Emit(o, StreamStarted(domain, resource)), FeaturesNode), passive, username, nextChallenge,
               Blob(nextChallenge, host.nowMs))
    }

    /** tryLogin: the stream start, the features, the auth stanza. */
    method TryLogin(host: Host) returns (threw: bool)
      modifies this`events, this`inputKey, this`outputKey, reader`inputKey
      ensures Out() == old(LoginStanzas(Out(), host))
      ensures threw <==> old(|nextChallenge| > 0 && Blob(nextChallenge, host.nowMs).Failure?)
    {
      hide Blob;
      Signal(StreamStarted(domain, resource));
      SendRequest(FeaturesNode);
      threw := SendAuth(host);
    }

    /**
     * parseSuccessNode: an expired account is signalled and logged out;
     * otherwise the clock correction and the next nonce are kept and the
     * follow-up requests go out.
     */
    method ParseSuccessNode(node: Node, host: Host)
      modifies this`serverTimeCorrection, this`nextChallenge, this`retry, this`status, this`iqid, this`bindStore, this`events,
               this`closing
      ensures closing == (old(closing) || (Expired(node) && socketOpen))
      ensures Expired(node) ==>
                && Out() == LoggedOut(Emit(old(Out()), AccountExpired(node.attributes)), old(status))
                && status == old(status) && retry == old(retry) && nextChallenge == old(nextChallenge)
                && serverTimeCorrection == old(serverTimeCorrection)
      ensures !Expired(node) ==>
                && serverTimeCorrection == TimeCorrection(node, host.now) && nextChallenge == node.data && retry == 0
                && status == (if passive then Initiaization else LoggedIn)
                && Out() == Succeeded(old(Out()), node, passive, UploadsPreKeys(passive, resource, host.noPreKeys), domain)
    {
      hide *;
      if Expired(node) {
        RejectExpired(node);
      } else {
        serverTimeCorrection, nextChallenge := TimeCorrection(node, host.now), node.data;
        AcceptSuccess(node, host);
      }
    }

    /** An expired account: signalled, then logged out. */
    method RejectExpired(node: Node)
      modifies this`events, this`closing
      ensures Out() == LoggedOut(Emit(old(Out()), AccountExpired(node.attributes)), status)
      ensures closing == (old(closing) || socketOpen)
    {
      Signal(AccountExpired(node.attributes));
      Logout();
    }

    /** The signals and requests that follow an accepted login. */
    method AcceptSuccess(node: Node, host: Host)
      modifies this`retry, this`status, this`iqid, this`bindStore, this`events
      ensures retry == 0 && status == (if passive then Initiaization else LoggedIn)
      ensures Out() == Succeeded(old(Out()), node, passive, UploadsPreKeys(passive, resource, host.noPreKeys), domain)
    {
      hide Followups, EncryptRequest;
      if UploadsPreKeys(passive, resource, host.noPreKeys) {
        SendEncrypt();
      }
      Signal(AuthSuccess(SuccessData(node)));
      retry := 0;
      SendFollowups();
      Signal(StatusChanged(status));
    }

    /** The privacy list and push configuration requests, then the ping and LoggedIn, or Initiaization when passive. */
    method SendFollowups()
      modifies this`status, this`iqid, this`bindStore, this`events
      ensures status == (if passive then Initiaization else LoggedIn)
      ensures Out() == Followups(old(Out()), passive, domain)
    {
      hide Request, PrivacyQuery, PushConfigQuery, PingQuery, PrivacyChild, Child;
      SendGetPrivacyList();
      SendGetPushConfig();
      if passive {
        status := Initiaization;
      } else {
        SendPing();
        status := LoggedIn;
      }
    }

    // -------------------------------------------------------------------
    // The socket's signals.
    // -------------------------------------------------------------------

    /**
     * socketDisconnected: the reader and writer reset, both counters back
     * to zero, the nonce dropped after a remote close, and the reconnect
     * policy applied.
     */
    method SocketDisconnected()
      modifies reader, this`socketOpen, this`closing, this`iqid, this`mseq, this`nextChallenge, this`status, this`retry,
               this`passiveReconnect, this`timers, this`events
      ensures LinkState() == AfterDisconnect(old(LinkState()))
      ensures !socketOpen && !closing && iqid == 0 && mseq == 0
      ensures nextChallenge == if lastError == RemoteHostClosedError then [] else old(nextChallenge)
      ensures events == old(events) + [WriterReset] + (if Announces(old(LinkState())) then [StatusChanged(status)] else [])
      ensures reader.input == old(reader.input) && reader.inputKey == null && !reader.broken
    {
      socketOpen, closing := false, false;
      Signal(WriterReset);
      reader.Reset();
      iqid := 0;
      mseq := 0;
      ApplyReconnectPolicy();
    }

    /** The branch of socketDisconnected on the last socket error: retry, reconnect once, or stay disconnected. */
    method ApplyReconnectPolicy()
      modifies this`nextChallenge, this`status, this`retry, this`passiveReconnect, this`timers, this`events
      ensures LinkState() == AfterDisconnect(old(LinkState()))
      ensures nextChallenge == if lastError == RemoteHostClosedError then [] else old(nextChallenge)
      ensures events == old(events) + (if Announces(old(LinkState())) then [StatusChanged(status)] else [])
    {
      if lastError == RemoteHostClosedError {
        nextChallenge := [];
        if !authFailed && retry < MaxRetry {
          status := Connecting;
          Signal(StatusChanged(status));
          retry := retry + 1;
          timers := timers + [retry * 1000];
        } else {
          status := Disconnected;
          Signal(StatusChanged(status));
        }
      } else if passiveReconnect {
        passiveReconnect := false;
        timers := timers + [1000];
      } else {
        status := Disconnected;
        Signal(StatusChanged(status));
      }
    }

    /** socketError: the error is remembered, and a network error means Disconnected at once. */
    method SocketError(error: SocketError)
      modifies this`lastError, this`status, this`events
      ensures LinkState() == AfterSocketError(old(LinkState()), error)
      ensures events == old(events) + (if error == NetworkError then [StatusChanged(Disconnected)] else [])
    {
      lastError := error;
      if error == NetworkError {
        status := Disconnected;
        Signal(StatusChanged(status));
      }
    }

    // -------------------------------------------------------------------
    // Reply handlers.
    // -------------------------------------------------------------------

    /** The countdown of contactsStatuses and featureResponse: at zero, re-armed, the groups are asked for. */
    method CountDownToGroups()
      modifies this`passiveCount, this`iqid, this`bindStore, this`events
      ensures PassiveState() == ToGroups(old(PassiveState())).after
      ensures Out() == Asked(old(Out()), ToGroups(old(PassiveState())).next, domain)
    {
      if passive {
        passiveCount := passiveCount - 1;
        if passiveCount == 0 {
          passiveCount := passiveCount + 1;
          SendGetGroups("participating");
        }
      }
    }

    /** The countdown of contactPicture and contactsPicrureIds: at zero, re-armed, the groups or else the broadcast lists. */
    method CountDownToNext()
      modifies this`passiveCount, this`iqid, this`bindStore, this`events
      ensures PassiveState() == ToNext(old(PassiveState())).after
      ensures Out() == Asked(old(Out()), ToNext(old(PassiveState())).next, domain)
    {
      if passive {
        passiveCount := passiveCount - 1;
        if passiveCount == 0 {
          passiveCount := passiveCount + 1;
          if !passiveGroups {
            SendGetGroups("participating");
          } else {
            SendGetBroadcasts();
          }
        }
      }
    }

    /** contactsStatuses: the statuses themselves go to a signal this model leaves out; then the countdown. */
    method ContactsStatuses(node: Node)
      modifies this`passiveCount, this`iqid, this`bindStore, this`events
      ensures PassiveState() == ToGroups(old(PassiveState())).after
      ensures Out() == Asked(old(Out()), ToGroups(old(PassiveState())).next, domain)
    {
      CountDownToGroups();
    }

    method FeatureResponse(node: Node)
      modifies this`passiveCount, this`iqid, this`bindStore, this`events
      ensures PassiveState() == ToGroups(old(PassiveState())).after
      ensures Out() == Asked(old(Out()), ToGroups(old(PassiveState())).next, domain)
    {
      CountDownToGroups();
    }

    /** contactPicture: the picture goes to a signal this model leaves out; then the countdown. */
    method ContactPicture(node: Node)
      modifies this`passiveCount, this`iqid, this`bindStore, this`events
      ensures PassiveState() == ToNext(old(PassiveState())).after
      ensures Out() == Asked(old(Out()), ToNext(old(PassiveState())).next, domain)
    {
      CountDownToNext();
    }

    /**
     * contactsPicrureIds: the users to fetch a picture for (those without
     * a picture id, or all while passive) are counted while passive, one
     * picture request each is made, and then the countdown.
     */
    method ContactsPicrureIds(node: Node)
      modifies this`passiveCount, this`iqid, this`bindStore, this`events
      ensures var jids := if HasChild(node.children, "list") then PicturesToFetch(GetChild(node.children, "list").children, passive) else [];
              var t := ToNext(AfterPictureIds(old(PassiveState()), |jids|));
              && PassiveState() == t.after
              && Out() == Asked(RequestPictures(old(Out()), jids), t.next, domain)
    {
      hide PicturesToFetch;
      if HasChild(node.children, "list") {
        var syncPictures := PictureJids(GetChild(node.children, "list").children);
        if passive {
          passiveCount := passiveCount + |syncPictures|;
        }
        SendGetPictures(syncPictures);
      }
      CountDownToNext();
    }

    /**
     * The users of a picture-id reply whose picture is fetched, in the
     * order the children's QMultiMap iterates them: most recently added first.
     */
    method PictureJids(users: seq<Node>) returns (syncPictures: seq<string>)
      ensures syncPictures == PicturesToFetch(users, passive)
    {
      syncPictures := [];
      var k := |users|;
      while k > 0
        invariant 0 <= k <= |users|
        invariant syncPictures == PicturesToFetch(users[k..], passive)
      {
        k := k - 1;
        var child := users[k];
        if child.tag == "user" {
          var jid := AttributeValue(child, "jid");
          if "id" in child.attributes {
            if passive {
              syncPictures := syncPictures + [jid];
            }
          } else {
            syncPictures := syncPictures + [jid];
          }
        }
        assert users[k..][1..] == users[k + 1..];
      }
      assert users[0..] == users;
    }

    /** One sendGetPicture per jid, in order. */
    method SendGetPictures(jids: seq<string>)
      modifies this`iqid, this`bindStore, this`events
      ensures Out() == RequestPictures(old(Out()), jids)
    {
      var i := 0;
      while i < |jids|
        invariant 0 <= i <= |jids|
        invariant Out() == RequestPictures(old(Out()), jids[..i])
      {
        SendGetPicture(jids[i]);
        assert jids[..i + 1][..i] == jids[..i];
        i := i + 1;
      }
      assert jids[..|jids|] == jids;
    }

    /** syncResponse: the synced jids restart the passive count, and their features are asked for. */
    method SyncResponse(node: Node)
      modifies this`passiveCount, this`passiveGroups, this`iqid, this`bindStore, this`events
      ensures PassiveState() == AfterSync(old(PassiveState()), |SyncedJids(node)| > 0)
      ensures Out() == Request(old(Out()), FeaturesQuery(domain), FeatureList(SyncedJids(node)), "featureResponse")
    {
      var synced := SyncedJids(node);
      if |synced| > 0 && passive {
        passiveCount := 2;
        passiveGroups := false;
      }
      if passive {
        passiveCount := passiveCount + 1;
        passiveGroups := false;
      }
      SendGetFeatures(synced);
    }

    /**
     * groupsResponse: when groups are listed their picture ids are asked
     * for (one more reply while passive); then the countdown, which asks
     * for the broadcast lists at zero and is not re-armed.
     */
    method GroupsResponse(node: Node)
      modifies this`passiveCount, this`passiveGroups, this`iqid, this`bindStore, this`events
      ensures var groups := GetChild(node.children, "groups").children;
              var found := HasChild(node.children, "groups") && |groups| > 0;
              var t := ToBroadcasts(AfterGroups(old(PassiveState()), found));
              var asked := if found then Request(old(Out()), PictureIdsQuery(domain), PictureIdsList(GroupJids(groups)), "contactsPicrureIds")
                           else old(Out());
              && PassiveState() == t.after
              && Out() == Asked(asked, t.next, domain)
    {
      hide Request, GroupJids, PictureIdsList, Blob;
      if HasChild(node.children, "groups") {
        var groups := GetChild(node.children, "groups").children;
        var jids := GroupJids(groups);
        GroupJidsOfGroups(groups);
        if |jids| > 0 {
          if passive {
            passiveCount := passiveCount + 1;
            passiveGroups := true;
          }
          SendGetPictureIds(jids);
        }
      }
      if passive {
        passiveCount := passiveCount - 1;
        if passiveCount == 0 {
          SendGetBroadcasts();
        }
      }
    }

    /** broadcastsResponse: while passive, the last list is in, so a ping and the switch to active. */
    method BroadcastsResponse(node: Node)
      modifies this`iqid, this`bindStore, this`events
      ensures Out() == if passive then Request(Request(old(Out()), PingQuery(domain), Child("ping"), "onPong"),
                                               PassiveQuery(domain), Child("active"), "passiveResponse")
                       else old(Out())
    {
      if passive {
        SendPing();
        SendPassive("active");
      }
    }

    /** passiveResponse: passive mode ends, one reconnect is due, and the connection logs out. */
    method PassiveResponse(node: Node)
      modifies this`passive, this`passiveCount, this`passiveReconnect, this`events, this`closing
      ensures closing == (old(closing) || socketOpen)
      ensures PassiveState() == Countdown(false, 0, old(passiveGroups))
      ensures LinkState() == LeavePassive(old(LinkState()))
      ensures Out() == LoggedOut(old(Out()), status)
    {
      passive := false;
      passiveCount := 0;
      passiveReconnect := true;
      Logout();
    }

    /** invokeMethod: the handler a reply was bound to; one this model does not run leaves a Reply event. */
    method Invoke(member: string, node: Node)
      modifies this`passive, this`passiveCount, this`passiveGroups, this`passiveReconnect, this`iqid, this`bindStore, this`events,
               this`closing
      ensures old(events) <= events
      ensures member !in Handlers ==>
                Out() == Emit(old(Out()), Reply(member, node)) && PassiveState() == old(PassiveState())
                && passiveReconnect == old(passiveReconnect)
      ensures member == "onPong" ==> Out() == old(Out()) && PassiveState() == old(PassiveState())
    {
      if member == "contactsStatuses" {
        ContactsStatuses(node);
      } else if member == "featureResponse" {
        FeatureResponse(node);
      } else if member == "contactPicture" {
        ContactPicture(node);
      } else if member == "contactsPicrureIds" {
        ContactsPicrureIds(node);
      } else if member == "syncResponse" {
        SyncResponse(node);
      } else if member == "groupsResponse" {
        GroupsResponse(node);
      } else if member == "broadcastsResponse" {
        BroadcastsResponse(node);
      } else if member == "passiveResponse" {
        PassiveResponse(node);
      } else if member == "onPong" {
      } else {
        Signal(Reply(member, node));
      }
    }

    // -------------------------------------------------------------------
    // Reading.
    // -------------------------------------------------------------------

    /**
     * What read() does with a decoded stanza: a pending id takes it to its
     * handler and out of the table, skipping the tag dispatch; otherwise
     * the tag decides. Then a "notify" attribute raises the push-name
     * signal. A blob that throws ends it early.
     */
    method Process(node: Node, host: Host) returns (route: Route, threw: bool)
      modifies this, reader`inputKey
      ensures route == RouteOf(old(bindStore), node)
      ensures socketOpen == old(socketOpen) && isReading == old(isReading)
      ensures old(events) <= events
      ensures threw ==> route == ByTag(Challenge) && |password| == 0
      ensures !threw && "notify" in node.attributes ==> |events| > 0 && events[|events| - 1] == PushnameOf(node).value
      ensures route == ByTag(AuthRejected) ==> authFailed && |events| > |old(events)| && events[|old(events)|] == AuthFailed
      ensures route == ByTag(StreamFault) ==> |events| > |old(events)| && events[|old(events)|] == StreamError
      ensures reader.inputKey == old(reader.inputKey) || fresh(reader.inputKey)
      ensures old(reader.inputKey) != null ==> reader.inputKey != null
    {
      hide *;
      route := RouteOf(bindStore, node);
      threw := false;
      if route.ToHandler? {
        Deliver(node);
      } else {
        threw := HandleTag(route.kind, node, host);
        if threw {
          return;
        }
      }
      var pushname := PushnameOf(node);
      if pushname.Some? {
        Signal(pushname.value);
      }
    }

    /** A reply to a pending request: its id leaves the table, then the handler bound to it runs. */
    method Deliver(node: Node)
      requires AttributeValue(node, "id") in bindStore
      modifies this`passive, this`passiveCount, this`passiveGroups, this`passiveReconnect, this`iqid, this`bindStore, this`events,
               this`closing
      ensures old(events) <= events
      ensures var member := old(bindStore)[AttributeValue(node, "id")];
              member !in Handlers ==> bindStore == Taken(old(bindStore), node) && events == old(events) + [Reply(member, node)]
    {
      var id := AttributeValue(node, "id");
      var member := bindStore[id];
      bindStore := bindStore - {id};
      Invoke(member, node);
    }

    /** The tag dispatch of read() for a stanza no request waits for. */
    method HandleTag(kind: Kind, node: Node, host: Host) returns (threw: bool)
      modifies this`events, this`nextChallenge, this`inputKey, this`outputKey, reader`inputKey, this`serverTimeCorrection,
               this`retry, this`status, this`iqid, this`bindStore, this`authFailed, this`closing
      ensures old(events) <= events
      ensures threw <==> kind == Challenge && |password| == 0
      ensures kind == StreamFault ==> events == old(events) + [StreamError]
      ensures kind == AuthRejected ==> authFailed && events == old(events) + [AuthFailed]
      ensures kind == Challenge ==> nextChallenge == node.data && Out() == Respond(old(Out()), old(Blob(node.data, host.nowMs)))
      ensures kind !in {StreamFault, Challenge, AuthOk, AuthRejected} ==> Out() == StanzaOut(old(Out()), kind, node, domain, host.decrypted, host.nowMs)
      ensures reader.inputKey == old(reader.inputKey) || fresh(reader.inputKey)
      ensures old(reader.inputKey) != null ==> reader.inputKey != null
    {
      hide Blob;
      if kind in {StreamFault, Challenge, AuthOk, AuthRejected} {
        threw := HandleSession(kind, node, host);
      } else {
        HandleStanza(kind, node, host);
        threw := false;
      }
    }

    /** The tags that steer the session: a stream error, a challenge, a login accepted or refused. */
    method HandleSession(kind: Kind, node: Node, host: Host) returns (threw: bool)
      requires kind in {StreamFault, Challenge, AuthOk, AuthRejected}
      modifies this`events, this`nextChallenge, this`inputKey, this`outputKey, reader`inputKey, this`serverTimeCorrection,
               this`retry, this`status, this`iqid, this`bindStore, this`authFailed, this`closing
      ensures old(events) <= events
      ensures threw <==> kind == Challenge && |password| == 0
      ensures kind == StreamFault ==> events == old(events) + [StreamError]
      ensures kind == AuthRejected ==> authFailed && events == old(events) + [AuthFailed]
      ensures kind == Challenge ==> nextChallenge == node.data && Out() == Respond(old(Out()), old(Blob(node.data, host.nowMs)))
      ensures reader.inputKey == old(reader.inputKey) || fresh(reader.inputKey)
      ensures old(reader.inputKey) != null ==> reader.inputKey != null
    {
      hide Blob, StreamsFor, Respond, Succeeded, LoggedOut;
      threw := false;
      if kind == StreamFault {
        Signal(StreamError);
      } else if kind == Challenge {
        nextChallenge := node.data;
        threw := SendResponse(nextChallenge, host);
        RespondEffects(old(Out()), old(Blob(node.data, host.nowMs)));
      } else if kind == AuthOk {
        ParseSuccessNode(node, host);
        if Expired(node) {
          LogoutEvents(Emit(old(Out()), AccountExpired(node.attributes)), old(status));
        } else {
          SuccessSignals(old(Out()), node, passive, UploadsPreKeys(passive, resource, host.noPreKeys), domain);
        }
      } else {
        Signal(AuthFailed);
        authFailed := true;
      }
    }

    /**
     * The tags read() handles itself: a server ping is answered; a
     * notification, a receipt, an ib and a call are answered and acted on;
     * a message, a presence and a chat state go to parsers that only signal.
     */
    method HandleStanza(kind: Kind, node: Node, host: Host)
      requires kind !in {StreamFault, Challenge, AuthOk, AuthRejected}
      modifies this`iqid, this`bindStore, this`events
      ensures Out() == StanzaOut(old(Out()), kind, node, domain, host.decrypted, host.nowMs)
    {
      hide MessageOut, NotificationOut, IbFold, CallFold, ReceiptAck;
      match kind
      case Iq =>
        if AttributeValue(node, "xmlns") == "urn:xmpp:ping" {
          SendResult(AttributeValue(node, "id"));
        }
      case Message => HandleMessage(node, host);
      case Notification => HandleNotification(node);
      case Receipt =>
        Signal(Handed(Receipt, node));
        SendReceiptAck(node);
      case Ib => HandleIb(node);
      case Presence => Signal(Handed(Presence, node));
      case Chatstate => Signal(Handed(Chatstate, node));
      case Call => ParseCall(node);
      case _ =>
    }

    /** The message branch of read(): parseMessage, then the receipt, or the retry for encrypted text that did not decrypt. */
    method HandleMessage(node: Node, host: Host)
      modifies this`events
      ensures Out() == MessageOut(old(Out()), node, host.decrypted, host.nowMs)
    {
      Signal(Handed(Message, node));
      if EncryptedText(node) && !host.decrypted {
        SendMessageRetry(node, host.nowMs);
      } else {
        SendMessageReceived(node);
      }
    }

    /** sendMessageReceived for a message parseMessage accepted. */
    method SendMessageReceived(node: Node)
      modifies this`events
      ensures Out() == Send(old(Out()), MessageReceipt(node))
    {
      SendRequest(MessageReceipt(node));
    }

    /** sendMessageRetry for an encrypted message that did not decrypt. */
    method SendMessageRetry(node: Node, nowMs: nat)
      modifies this`events
      ensures Out() == Send(old(Out()), MessageRetry(node, nowMs))
    {
      SendRequest(MessageRetry(node, nowMs));
    }

    /** sendReceiptAck. */
    method SendReceiptAck(node: Node)
      modifies this`events
      ensures Out() == Send(old(Out()), ReceiptAck(node))
    {
      SendRequest(ReceiptAck(node));
    }

    /** sendCleanDirty: the categories to clean, under a new id; no reply is awaited. */
    method SendCleanDirty(categories: seq<string>)
      modifies this`iqid, this`events
      ensures Out() == Send(old(Out()).(iqid := Next32(old(iqid))), CleanDirtyNode(IdAt(old(iqid), 1), domain, categories))
    {
      var id := MakeId();
      SendRequest(CleanDirtyNode(id, domain, categories));
    }

    /** The ib stanza: each dirty child has its category cleaned, each offline child has its count signalled. */
    method HandleIb(node: Node)
      modifies this`iqid, this`events
      ensures Out() == IbFold(old(Out()), Iteration(node.children), domain)
    {
      hide Iteration, CleanDirtyNode, CleansCategories, ToInt, Tagged, Send, Trimmed, Decimal;
      var items := Iteration(node.children);
      var i := 0;
      while i < |items|
        invariant 0 <= i <= |items|
        invariant IbFold(Out(), items[i..], domain) == IbFold(old(Out()), items, domain)
      {
        var child := items[i];
        ghost var before := Out();
        if child.tag == "dirty" {
          SendCleanDirty([AttributeValue(child, "type")]);
        } else if child.tag == "offline" {
          Signal(OfflineMessages(ToInt(AttributeValue(child, "count"))));
        }
        assert Out() == IbStep(before, child, domain);
        assert items[i..][1..] == items[i + 1..];
        i := i + 1;
      }
    }

    /** sendNotificationReceived. */
    method SendNotificationReceived(node: Node)
      modifies this`events
      ensures Out() == Send(old(Out()), NotificationAck(node))
    {
      SendRequest(NotificationAck(node));
    }

    /** A notification: acknowledged, then parsed by its type. */
    method HandleNotification(node: Node)
      modifies this`iqid, this`bindStore, this`events
      ensures Out() == NotificationOut(old(Out()), node, domain)
    {
      SendNotificationReceived(node);
      var kind := AttributeValue(node, "type");
      if kind == "contacts" {
        ParseContactsNotification(node);
      } else if kind == "picture" {
        ParsePictureNotification(node);
      } else if kind == "w:gp2" || kind == "status" {
        Signal(Handed(Notification, node));
      } else if kind == "encrypt" {
        ParseEncryptNotification(node);
      }
    }

    /** parseContactsNotification: an updated contact is asked about; any other change is signalled. */
    method ParseContactsNotification(node: Node)
      modifies this`iqid, this`bindStore, this`events
      ensures Out() == ContactsFold(old(Out()), Iteration(node.children), domain)
    {
      hide Iteration, Request, PictureIdsQuery, PictureIdsList, StatusesQuery, StatusList, LastSeenQuery;
      var items := Iteration(node.children);
      var i := 0;
      while i < |items|
        invariant 0 <= i <= |items|
        invariant ContactsFold(Out(), items[i..], domain) == ContactsFold(old(Out()), items, domain)
      {
        var child := items[i];
        ghost var before := Out();
        if child.tag == "update" {
          var jid := AttributeValue(child, "jid");
          SendGetLastSeen(jid);
          SendGetPictureIds([jid]);
          SendGetStatuses([jid]);
        } else {
          Signal(ContactsNotification(child.tag, child.attributes));
        }
        assert Out() == ContactsStep(before, child, domain);
        assert items[i..][1..] == items[i + 1..];
        i := i + 1;
      }
    }

    /** parsePictureNotification: a new picture id is signalled; a deleted picture is asked for again. */
    method ParsePictureNotification(node: Node)
      modifies this`iqid, this`bindStore, this`events
      ensures Out() == PictureFold(old(Out()), Iteration(node.children))
    {
      var items := Iteration(node.children);
      var i := 0;
      while i < |items|
        invariant 0 <= i <= |items|
        invariant PictureFold(Out(), items[i..]) == PictureFold(old(Out()), items)
      {
        var child := items[i];
        ghost var before := Out();
        var jid := AttributeValue(child, "jid");
        if child.tag == "set" {
          Signal(ContactPictureId(jid, AttributeValue(child, "id"), AttributeValue(child, "author")));
        } else if child.tag == "delete" {
          SendGetPicture(jid);
        }
        assert Out() == PictureStep(before, child);
        assert items[i..][1..] == items[i + 1..];
        i := i + 1;
      }
    }

    /** parseEncryptNotification: new pre-keys are uploaded once the server holds ten or fewer. */
    method ParseEncryptNotification(node: Node)
      modifies this`iqid, this`bindStore, this`events
      ensures Out() == EncryptOut(old(Out()), node)
    {
      if HasChild(node.children, "count") {
        var countNode := GetChild(node.children, "count");
        var prekeysRemaining := ToInt(AttributeValue(countNode, "value"));
        if prekeysRemaining <= 10 {
          SendEncrypt();
        }
      }
    }

    /** sendCallReject. */
    method SendCallReject(jid: string, id: string, callId: string)
      modifies this`events
      ensures Out() == Send(old(Out()), CallReject(jid, id, callId))
    {
      SendRequest(CallReject(jid, id, callId));
    }

    /** parseCall: every offer is rejected and announced. */
    method ParseCall(node: Node)
      modifies this`events
      ensures Out() == CallFold(old(Out()), node, Iteration(node.children))
    {
      var jid := AttributeValue(node, "from");
      var items := Iteration(node.children);
      var i := 0;
      while i < |items|
        invariant 0 <= i <= |items|
        invariant CallFold(Out(), node, items[i..]) == CallFold(old(Out()), node, items)
      {
        var item := items[i];
        ghost var before := Out();
        if item.tag == "offer" {
          SendCallReject(jid, AttributeValue(node, "id"), AttributeValue(item, "call-id"));
          Signal(IncomingCall(jid, AttributeValue(node, "t")));
        }
        assert Out() == CallStep(before, node, item);
        assert items[i..][1..] == items[i + 1..];
        i := i + 1;
      }
    }

    /**
     * read() as written: with the guard set it returns true at once;
     * otherwise it sets the guard, takes a frame, and clears the guard only
     * once the stanza was handled.
     */
    method Read(host: Host) returns (ok: bool, threw: bool)
      requires !isReading ==> FrameAvailable(reader.input)
                              && (Encrypted(TreeDecoding.HeaderFlags(FrameHeader(reader.input))) ==> reader.inputKey != null)
      modifies this, reader, reader.inputKey
      ensures old(isReading) ==> ok && !threw && unchanged(this) && unchanged(reader)
      ensures !old(isReading) ==>
                reader.input == AfterFrame(old(reader.input))
                && Guard(ok, isReading, true) == ReadAsWritten(false, OutcomeOf(ok, threw))
      ensures socketOpen == old(socketOpen)
      ensures reader.inputKey == old(reader.inputKey) || fresh(reader.inputKey)
      ensures old(reader.inputKey) != null ==> reader.inputKey != null
      ensures old(events) <= events
    {
      hide Blob, TreeDecoding.NextTreeInternal, Accepts, Crypt, RouteOf, PushnameOf;
      threw := false;
      if !isReading {
        isReading := true;
      } else {
        return true, false;
      }
      var holder := new ProtocolTreeNode();
      ok := reader.NextTree(holder);
      if ok {
        var route;
        route, threw := Process(holder.Value(), host);
        if threw {
          return false, true;
        }
        isReading := false;
      }
    }

    /** read() releasing its guard however the read ends. */
    method ReadReleasing(host: Host) returns (ok: bool, threw: bool)
      requires !isReading ==> FrameAvailable(reader.input)
                              && (Encrypted(TreeDecoding.HeaderFlags(FrameHeader(reader.input))) ==> reader.inputKey != null)
      modifies this, reader, reader.inputKey
      ensures old(isReading) ==> ok && !threw && unchanged(this) && unchanged(reader)
      ensures !old(isReading) ==>
                reader.input == AfterFrame(old(reader.input))
                && Guard(ok, isReading, true) == ConnectionLogic.ReadReleasing(false, OutcomeOf(ok, threw))
      ensures socketOpen == old(socketOpen)
      ensures reader.inputKey == old(reader.inputKey) || fresh(reader.inputKey)
      ensures old(reader.inputKey) != null ==> reader.inputKey != null
      ensures old(events) <= events
    {
      hide Blob, TreeDecoding.NextTreeInternal, Accepts, Crypt, RouteOf, PushnameOf;
      threw := false;
      if isReading {
        return true, false;
      }
      isReading := true;
      var holder := new ProtocolTreeNode();
      ok := reader.NextTree(holder);
      if ok {
        var route;
        route, threw := Process(holder.Value(), host);
        if threw {
          ok := false;
        }
      }
      isReading := false;
    }

    /**
     * The socket is in ConnectedState: connected, and neither logout nor
     * the reader's harakiri has asked it to disconnect.
     */
    predicate InConnectedState()
      reads this`socketOpen, this`closing, reader`broken
      ensures InConnectedState() ==> socketOpen && !reader.broken
    {
      socketOpen && !closing && !reader.broken
    }

    /**
     * readNode with the releasing read: while the socket is in
     * ConnectedState and octets are pending, read. A logout or a harakiri
     * takes the socket out of ConnectedState and an exception out of read()
     * leaves the loop; otherwise every pending frame is read, one per call,
     * and the guard is free at the end.
     */
    method ReadNode(host: Host) returns (frames: nat, threw: bool)
      requires !isReading && FramesReadable(reader.input, reader.inputKey != null)
      modifies this, reader, reader.inputKey
      ensures !isReading && socketOpen == old(socketOpen) && old(events) <= events
      ensures reader.input == AfterFrames(old(reader.input), frames) && frames <= FrameCount(old(reader.input))
      ensures !old(InConnectedState()) ==> frames == 0 && !threw
      ensures threw ==> frames > 0
      ensures threw || !InConnectedState() || reader.input == []
      ensures !threw && InConnectedState() ==> frames == FrameCount(old(reader.input))
    {
      hide Blob, TreeDecoding.NextTreeInternal, Accepts, Crypt, RouteOf, PushnameOf, FrameCount, FramesReadable, FrameAvailable, Encrypted, TreeDecoding.HeaderFlags, FrameHeader, AfterFrame;
      frames, threw := 0, false;
      while !threw && InConnectedState() && |reader.input| > 0
        invariant !isReading && socketOpen == old(socketOpen)
        invariant FramesReadable(reader.input, reader.inputKey != null)
        invariant reader.input == AfterFrames(old(reader.input), frames)
        invariant frames + FrameCount(reader.input) == FrameCount(old(reader.input))
        invariant frames == 0 ==> InConnectedState() == old(InConnectedState())
        invariant !old(InConnectedState()) ==> frames == 0
        invariant threw ==> frames > 0
        invariant reader.inputKey == old(reader.inputKey) || fresh(reader.inputKey)
        invariant old(events) <= events
        decreases |reader.input|
      {
        ghost var keyed := reader.inputKey != null;
        FrameTaken(reader.input, keyed);
        var ok;
        ok, threw := ReadReleasing(host);
        ReadableOnceKeyed(reader.input, keyed, reader.inputKey != null);
        frames := frames + 1;
      }
      if reader.input == [] {
        NoFrameLeft(reader.input);
      }
    }

    // -------------------------------------------------------------------
    // Sending a text.
    // -------------------------------------------------------------------

    /**
     * sendText, once LoggedIn: the message id is the one given or a new
     * one from messageId; the body goes in the clear (S40 resources, jids
     * outside the domain, jids marked to skip encoding), bound to
     * messageSent and signalled with the corrected server time, or else to
     * the end-to-end layer.
     */
    method SendText(jid: string, text: string, msgId: string, host: Host)
      modifies this`mseq, this`bindStore, this`events
      ensures status != LoggedIn ==> mseq == old(mseq) && Out() == old(Out())
      ensures status == LoggedIn ==>
                var id := if msgId == "" then MessageIdOf(sessionTime, old(mseq)) else msgId;
                var time := Number((host.now + serverTimeCorrection) % Modulus32, 10);
                && mseq == (if msgId == "" then Next32(old(mseq)) else old(mseq))
                && Out() == if InClear(resource, domain, skipEncodingJids, jid)
                            then Emit(SendBound(old(Out()), TextMessage(jid, id, text), "messageSent"), TextMessageSent(jid, id, time, text))
                            else Emit(old(Out()), ToEndToEnd(MessageNode(jid, "text", id), text))
    {
      hide TextMessage, SendBound, Number;
      if status != LoggedIn {
        return;
      }
      var id := msgId;
      if msgId == "" {
        id := MessageId();
      }
      if InClear(resource, domain, skipEncodingJids, jid) {
        SendClearText(jid, id, text, host);
      } else {
        Signal(ToEndToEnd(MessageNode(jid, "text", id), text));
      }
    }

    /** The clear-text branch of sendText: the message with its body, bound to messageSent, then the sent signal with the server time. */
    method SendClearText(jid: string, id: string, text: string, host: Host)
      modifies this`bindStore, this`events
      ensures Out() == Emit(SendBound(old(Out()), TextMessage(jid, id, text), "messageSent"),
                            TextMessageSent(jid, id, Number((host.now + serverTimeCorrection) % Modulus32, 10), text))
    {
      hide MessageNode, TextBody, TextMessage, SendBound, Number, AttributeValue, Utf8, GetChild;
      var time := Number((host.now + serverTimeCorrection) % Modulus32, 10);
      var message := TextMessage(jid, id, text);
      SendBoundRequest(message, "messageSent");
      ghost var bound := Out();
      Signal(TextMessageSent(jid, AttributeValue(message, "id"), time, text));
      assert Out() == Emit(bound, TextMessageSent(jid, id, time, text));
    }
  }
}
