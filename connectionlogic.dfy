// The decisions the connection takes, as functions on small records: what a
// request writes and which handler its reply goes to, how a stanza is
// routed, the reconnect policy after a disconnect, the passive-sync
// countdown, the login stanzas and the authentication blob. The
// WAConnectionPrivate class in module Connection changes its fields as
// these functions say; the lemmas here are what the functions promise.
module ConnectionLogic {
  import opened Bytes
  import opened Wrappers
  import opened Hmac
  import opened ProtocolTree
  import opened KeyStreams
  import opened OrderedKeys

  // ---------------------------------------------------------------------
  // Counters, status, stanza kinds, events.
  // ---------------------------------------------------------------------

  const Modulus32: nat := 0x1_0000_0000

  /** A C++ `uint`. */
  type uint32 = n: nat | n < Modulus32

  /** `++` on a C++ `uint`: the largest value wraps around to zero. */
  function Next32(n: uint32): uint32
  {
    if n == Modulus32 - 1 then 0 else n + 1
  }

  /** A `uint` counter after k increments. */
  function Advance(n: uint32, k: nat): uint32
    decreases k
  {
    if k == 0 then n else Next32(Advance(n, k - 1))
  }

  /** Increments made in two runs count as one run. */
  lemma {:induction false} AdvanceAdd(n: uint32, a: nat, b: nat)
    ensures Advance(Advance(n, a), b) == Advance(n, a + b)
    decreases b
  {
    if b > 0 {
      AdvanceAdd(n, a, b - 1);
    }
  }

  /** k increments add k modulo 2^32. */
  lemma {:induction false} AdvanceWraps(n: uint32, k: nat)
    ensures Advance(n, k) == (n + k) % Modulus32
    decreases k
  {
    if k > 0 {
      AdvanceWraps(n, k - 1);
      var q := (n + k - 1) / Modulus32;
      var r := (n + k - 1) % Modulus32;
      assert n + k == q * Modulus32 + (r + 1);
      if r == Modulus32 - 1 {
        assert n + k == (q + 1) * Modulus32;
      } else {
        assert (n + k) / Modulus32 == q;
      }
    }
  }

  /** The connection status; the source compares the values by their order. */
  datatype Status = Disconnected | Connecting | Connected | Initiaization | LoggedIn

  function Rank(s: Status): nat
  {
    match s
    case Disconnected => 0
    case Connecting => 1
    case Connected => 2
    case Initiaization => 3
    case LoggedIn => 4
  }

  /** The socket errors the connection tells apart. */
  datatype SocketError = UnknownSocketError | RemoteHostClosedError | NetworkError | OtherSocketError(code: int)

  /** The stanza tags read() dispatches on. */
  datatype Kind =
    | StreamStart | StreamClose | StreamFeatures | StreamFault | Challenge | AuthOk | AuthRejected
    | Message | Iq | Notification | Receipt | Ib | Ack | Presence | Chatstate | Call
    | Unrecognized

  function TagOf(k: Kind): string
    requires k != Unrecognized
  {
    match k
    case StreamStart => "stream:start"
    case StreamClose => "stream:close"
    case StreamFeatures => "stream:features"
    case StreamFault => "stream:error"
    case Challenge => "challenge"
    case AuthOk => "success"
    case AuthRejected => "failure"
    case Message => "message"
    case Iq => "iq"
    case Notification => "notification"
    case Receipt => "receipt"
    case Ib => "ib"
    case Ack => "ack"
    case Presence => "presence"
    case Chatstate => "chatstate"
    case Call => "call"
  }

  /** The tag comparisons of read(): each known tag has its own kind. */
  function Classify(tag: string): (k: Kind)
    ensures k != Unrecognized ==> TagOf(k) == tag
    ensures k == Unrecognized ==> forall other: Kind :: other != Unrecognized ==> TagOf(other) != tag
  {
    if tag == "stream:start" then StreamStart
    else if tag == "stream:close" then StreamClose
    else if tag == "stream:features" then StreamFeatures
    else if tag == "stream:error" then StreamFault
    else if tag == "challenge" then Challenge
    else if tag == "success" then AuthOk
    else if tag == "failure" then AuthRejected
    else if tag == "message" then Message
    else if tag == "iq" then Iq
    else if tag == "notification" then Notification
    else if tag == "receipt" then Receipt
    else if tag == "ib" then Ib
    else if tag == "ack" then Ack
    else if tag == "presence" then Presence
    else if tag == "chatstate" then Chatstate
    else if tag == "call" then Call
    else Unrecognized
  }

  /** What the connection makes observable: stanzas written, signals and calls on the writer and the socket. */
  datatype Event =
    | Wrote(node: Node)
    | StatusChanged(status: Status)
    | ConnectTo(host: string, port: nat)
    | StreamStarted(domain: string, resource: string)
    | StreamEnded
    | CryptoEnabled
    | WriterReset
    | DisconnectFromHost
    | AuthSuccess(accountData: Attributes)
    | AccountExpired(accountData: Attributes)
    | AuthFailed
    | StreamError
    | Pushname(jid: string, name: string)
    | Handed(kind: Kind, node: Node)
    | OfflineMessages(count: int)
    | ContactsNotification(tag: string, attributes: Attributes)
    | ContactPictureId(jid: string, id: string, author: string)
    | IncomingCall(jid: string, time: string)
    | Reply(member: string, node: Node)
    | PreKeysSent(id: string)
    | ToEndToEnd(message: Node, text: string)
    | TextMessageSent(jid: string, id: string, time: string, text: string)

  // ---------------------------------------------------------------------
  // Ids.
  // ---------------------------------------------------------------------

  /** The id makeId returns i calls after the counter stood at start. */
  function IdAt(start: uint32, i: nat): (r: string)
    ensures ParseNumber(r, 16) == Advance(start, i)
  {
    ParseNumberOfNumber(Advance(start, i), 16);
    Number(Advance(start, i), 16)
  }

  /** Ids never repeat while fewer than 2^32 of them are made. */
  lemma IdsNeverRepeat(start: uint32, i: nat, j: nat)
    requires i < j < Modulus32
    ensures IdAt(start, i) != IdAt(start, j)
  {
    AdvanceWraps(start, i);
    AdvanceWraps(start, j);
    NumberInjective(Advance(start, i), Advance(start, j), 16);
  }

  /** messageId: "<sessionTime>-<mseq in hex>", then mseq moves on. */
  function MessageIdOf(sessionTime: nat, mseq: nat): (r: string)
    ensures var head := Number(sessionTime, 10);
            && |r| > |head| + 1 && r[..|head|] == head && r[|head|] == '-'
            && ParseNumber(head, 10) == sessionTime && ParseNumber(r[|head| + 1..], 16) == mseq
  {
    var head := Number(sessionTime, 10);
    ParseNumberOfNumber(sessionTime, 10);
    ParseNumberOfNumber(mseq, 16);
    assert (head + "-" + Number(mseq, 16))[|head| + 1..] == Number(mseq, 16);
    head + "-" + Number(mseq, 16)
  }

  /** Two message counters give two different message ids. */
  lemma MessageIdsDistinct(t: nat, m: nat, n: nat)
    requires m != n
    ensures MessageIdOf(t, m) != MessageIdOf(t, n)
  {
    var prefix := Number(t, 10) + "-";
    assert MessageIdOf(t, m) == prefix + Number(m, 16);
    assert MessageIdOf(t, n) == prefix + Number(n, 16);
    assert MessageIdOf(t, m)[|prefix|..] == Number(m, 16);
    assert MessageIdOf(t, n)[|prefix|..] == Number(n, 16);
    NumberInjective(m, n, 16);
  }

  // ---------------------------------------------------------------------
  // QString helpers.
  // ---------------------------------------------------------------------

  predicate StartsWith(s: string, prefix: string)
  {
    prefix <= s
  }

  /** QString::contains for a substring. */
  predicate Contains(s: string, sub: string)
  {
    sub <= s || (|s| > 0 && Contains(s[1..], sub))
  }

  /** The digits toUInt and toULongLong read: the text without white space around it or a leading '+'. */
  function UnsignedDigits(s: string): string
  {
    var t := Trimmed(s);
    if |t| > 0 && t[0] == '+' then t[1..] else t
  }

  /**
   * QString::toUInt / toULongLong in base 10: the value of a decimal
   * numeral, with white space around it and a '+' in front skipped, while
   * it is below bound; 0 for any other text, a minus sign included.
   */
  function ToUnsigned(s: string, bound: nat): (r: nat)
    ensures r < bound || r == 0
    ensures !Decimal(UnsignedDigits(s)) ==> r == 0
  {
    var digits := UnsignedDigits(s);
    if Decimal(digits) && ParseNumber(digits, 10) < bound then ParseNumber(digits, 10) else 0
  }

  /** A numeral below the bound reads back, with any white space around it and an optional '+'. */
  lemma ToUnsignedOfNumber(n: nat, bound: nat, lead: string, plus: bool, trail: string)
    requires n < bound
    requires forall k :: 0 <= k < |lead| ==> IsSpace(lead[k])
    requires forall k :: 0 <= k < |trail| ==> IsSpace(trail[k])
    ensures ToUnsigned(lead + ((if plus then "+" else "") + Number(n, 10)) + trail, bound) == n
  {
    hide ParseNumber, Number, TrimStart, TrimEnd;
    var digits := Number(n, 10);
    var t := (if plus then "+" else "") + digits;
    NumberDecimal(n);
    assert !IsSpace(t[0]) && !IsSpace(t[|t| - 1]) by {
      assert t[|t| - 1] == digits[|digits| - 1];
    }
    TrimmedOfPadded(lead, t, trail);
    assert UnsignedDigits(lead + t + trail) == digits by {
      if plus {
        assert t[1..] == digits;
      }
    }
    ParseNumberOfNumber(n, 10);
  }

  /** A minus sign makes the unsigned conversions fail, so they read 0. */
  lemma NegativeUnsignedIsZero(s: string, bound: nat)
    ensures ToUnsigned("-" + s, bound) == 0
  {
    TrimmedKeepsHead("-" + s);
    var t := Trimmed("-" + s);
    assert UnsignedDigits("-" + s) == t && t[0] == '-';
  }

  /** The first part of split("@"): everything before the first '@'. */
  function UserPart(jid: string): (r: string)
    ensures r <= jid && '@' !in r
    ensures |r| < |jid| ==> jid[|r|] == '@'
  {
    if |jid| == 0 || jid[0] == '@' then [] else [jid[0]] + UserPart(jid[1..])
  }

  /** getRecepient: the user part as a 64-bit number, 0 when it is not one. */
  function Recipient(jid: string): (r: nat)
    ensures r < 0x1_0000_0000_0000_0000
    ensures !Decimal(UnsignedDigits(UserPart(jid))) ==> r == 0
  {
    ToUnsigned(UserPart(jid), 0x1_0000_0000_0000_0000)
  }

  /** A jid "<number>@<server>" gives its number back. */
  lemma RecipientOfJid(n: nat, server: string)
    requires n < 0x1_0000_0000_0000_0000
    ensures Recipient(Number(n, 10) + "@" + server) == n
  {
    var digits := Number(n, 10);
    NumberDecimal(n);
    assert '@' !in digits;
    UserPartBeforeAt(digits, server);
    ToUnsignedOfNumber(n, 0x1_0000_0000_0000_0000, [], false, []);
    assert [] + ((if false then "+" else "") + digits) + [] == digits;
  }

  lemma {:induction false} UserPartBeforeAt(w: string, rest: string)
    requires '@' !in w
    ensures UserPart(w + "@" + rest) == w
    decreases |w|
  {
    if |w| > 0 {
      assert w[0] in w;
      assert (w + "@" + rest)[1..] == w[1..] + "@" + rest;
      UserPartBeforeAt(w[1..], rest);
    }
  }

  // ---------------------------------------------------------------------
  // sendSync's table.
  // ---------------------------------------------------------------------

  /** The (mode, context) pair of a sync type. */
  function SyncMode(syncType: int): (r: (string, string))
    ensures r.0 in {"full", "delta", "query", "chunked"} && r.1 in {"registration", "interactive", "background"}
  {
    match syncType
    case 0 => ("full", "registration")
    case 1 => ("full", "interactive")
    case 2 => ("full", "background")
    case 3 => ("delta", "interactive")
    case 4 => ("delta", "background")
    case 5 => ("query", "interactive")
    case 6 => ("chunked", "registration")
    case 7 => ("chunked", "interactive")
    case 8 => ("chunked", "background")
    case _ => ("delta", "background")
  }

  /** The nine sync types are told apart; any other type is sent as type 4. */
  lemma SyncModeTable(a: int, b: int, other: int)
    requires 0 <= a < b <= 8
    requires other < 0 || other > 8
    ensures SyncMode(a) != SyncMode(b)
    ensures SyncMode(other) == SyncMode(4)
  {
  }

  /** syncContacts: a passive login syncs for registration, an active one interactively. */
  function SyncContactsType(passive: bool): (t: int)
    ensures SyncMode(t) == if passive then ("full", "registration") else ("delta", "interactive")
  {
    if passive then 0 else 3
  }

  // ---------------------------------------------------------------------
  // Requests and the table of pending replies.
  // ---------------------------------------------------------------------

  /**
   * The socket side of the connection: whether the socket is open, makeId's
   * counter, the handler waiting for each reply id, and the event log.
   */
  datatype Outbox = Outbox(open: bool, iqid: uint32, bindStore: map<string, string>, events: seq<Event>)

  function Emit(o: Outbox, e: Event): Outbox
  {
    o.(events := o.events + [e])
  }

  /** sendRequest(node): the stanza is written exactly when the socket is open; the table is not touched. */
  function Send(o: Outbox, node: Node): (r: Outbox)
    ensures r.open == o.open && r.iqid == o.iqid && r.bindStore == o.bindStore
    ensures o.events <= r.events && |r.events| == |o.events| + (if o.open then 1 else 0)
  {
    if o.open then Emit(o, Wrote(node)) else o
  }

  /** What sendRequest writes: the node, exactly when the socket is open, and nothing else changes. */
  lemma SendWrites(o: Outbox, node: Node)
    ensures var r := Send(o, node);
            && r.open == o.open && r.iqid == o.iqid && r.bindStore == o.bindStore && o.events <= r.events
            && (Wrote(node) in r.events[|o.events|..] <==> o.open)
  {
    if o.open {
      assert Send(o, node).events[|o.events|..] == [Wrote(node)];
    }
  }

  /** sendRequest(node, member): while the socket is open the node's id is bound to member before the node is written. */
  function SendBound(o: Outbox, node: Node, member: string): (r: Outbox)
    ensures r.open == o.open && r.iqid == o.iqid && o.events <= r.events
    ensures o.open ==> AttributeValue(node, "id") in r.bindStore && r.bindStore[AttributeValue(node, "id")] == member
    ensures !o.open ==> r == o
  {
    if o.open then Send(o.(bindStore := o.bindStore[AttributeValue(node, "id") := member]), node) else o
  }

  /** An iq stanza: the attributes with the id set, and the one child. */
  function IqNode(attrs: Attributes, id: string, child: Node): (r: Node)
    ensures r.tag == "iq" && r.children == [child] && AttributeValue(r, "id") == id
    ensures forall k :: k in attrs && k != "id" ==> AttributeValue(r, k) == attrs[k]
  {
    Node("iq", attrs["id" := id], [], [child], 0)
  }

  /**
   * An iq stanza with the next id from makeId, whose reply goes to member:
   * the counter always moves on; only an open socket binds and writes.
   */
  function Request(o: Outbox, attrs: Attributes, child: Node, member: string): (r: Outbox)
    ensures r.open == o.open && r.iqid == Next32(o.iqid) && o.events <= r.events
    ensures !o.open ==> r.bindStore == o.bindStore && r.events == o.events
  {
    SendBound(o.(iqid := Next32(o.iqid)), IqNode(attrs, IdAt(o.iqid, 1), child), member)
  }

  /** Where read() sends a stanza: to the handler bound to its id, or on by its tag. */
  datatype Route = ToHandler(member: string) | ByTag(kind: Kind)

  function RouteOf(bindStore: map<string, string>, node: Node): (r: Route)
    ensures r.ToHandler? <==> AttributeValue(node, "id") in bindStore
  {
    var id := AttributeValue(node, "id");
    if id in bindStore then ToHandler(bindStore[id]) else ByTag(Classify(node.tag))
  }

  /** The table once read() has taken a stanza's id out of it. */
  function Taken(bindStore: map<string, string>, node: Node): (r: map<string, string>)
    ensures AttributeValue(node, "id") !in r
    ensures forall id :: id in r <==> id in bindStore && id != AttributeValue(node, "id")
  {
    bindStore - {AttributeValue(node, "id")}
  }

  /**
   * A request's reply goes to the handler the request named, once: the
   * request writes a stanza carrying the fresh id, the reply with that id
   * is routed to the handler, and once the id is taken another stanza with
   * it goes by its tag.
   */
  lemma ReplyGoesToHandler(o: Outbox, attrs: Attributes, child: Node, member: string, reply: Node)
    requires o.open && AttributeValue(reply, "id") == IdAt(o.iqid, 1)
    ensures var r := Request(o, attrs, child, member);
            && r.events == o.events + [Wrote(IqNode(attrs, IdAt(o.iqid, 1), child))]
            && AttributeValue(IqNode(attrs, IdAt(o.iqid, 1), child), "id") == AttributeValue(reply, "id")
            && RouteOf(r.bindStore, reply) == ToHandler(member)
            && RouteOf(Taken(r.bindStore, reply), reply) == ByTag(Classify(reply.tag))
  {
    var node := IqNode(attrs, IdAt(o.iqid, 1), child);
    assert AttributeValue(node, "id") == IdAt(o.iqid, 1);
  }

  /** The push-name signal of a stanza with a "notify" attribute: for the participant when there is one, else for the sender. */
  function PushnameOf(node: Node): (r: Option<Event>)
    ensures r.Some? <==> "notify" in node.attributes
    ensures r.Some? ==> r.value.Pushname? && r.value.name == node.attributes["notify"]
    ensures r.Some? && "participant" in node.attributes ==> r.value.jid == node.attributes["participant"]
    ensures r.Some? && "participant" !in node.attributes ==> r.value.jid == AttributeValue(node, "from")
  {
    if "notify" in node.attributes then
      var user := if "participant" in node.attributes then node.attributes["participant"] else AttributeValue(node, "from");
      Some(Pushname(user, node.attributes["notify"]))
    else None
  }

  // ---------------------------------------------------------------------
  // Logout.
  // ---------------------------------------------------------------------

  /** The presence sendSetPresence(false) writes. */
  const Unavailable: Node := Node("presence", map["type" := "unavailable"], [], [], 0)

  /**
   * logout: from Initiaization on, an unavailable presence and the end of
   * the stream; then the socket is asked to close if it is open. The
   * status is left to the disconnect signal.
   */
  function LoggedOut(o: Outbox, status: Status): (r: Outbox)
    ensures r.open == o.open && r.iqid == o.iqid && r.bindStore == o.bindStore && o.events <= r.events
  {
    var o1 := if Rank(status) >= Rank(Initiaization) then Emit(Send(o, Unavailable), StreamEnded) else o;
    if o.open then Emit(o1, DisconnectFromHost) else o1
  }

  /** The events logout adds: the presence and stream end, then the close. */
  lemma LogoutEvents(o: Outbox, status: Status)
    ensures LoggedOut(o, status).events == o.events
              + (if Rank(status) >= Rank(Initiaization) then (if o.open then [Wrote(Unavailable)] else []) + [StreamEnded] else [])
              + (if o.open then [DisconnectFromHost] else [])
  {
    if Rank(status) >= Rank(Initiaization) {
      assert Send(o, Unavailable).events == o.events + (if o.open then [Wrote(Unavailable)] else []);
    }
  }

  /** Logout asks the socket to close exactly when it is open, and ends the stream exactly from Initiaization on. */
  lemma LogoutCloses(o: Outbox, status: Status)
    ensures o.open <==> DisconnectFromHost in LoggedOut(o, status).events[|o.events|..]
    ensures Rank(status) >= Rank(Initiaization) <==> StreamEnded in LoggedOut(o, status).events[|o.events|..]
  {
    LogoutEvents(o, status);
    var written := if o.open then [Wrote(Unavailable)] else [];
    var ended := if Rank(status) >= Rank(Initiaization) then written + [StreamEnded] else [];
    var closed := if o.open then [DisconnectFromHost] else [];
    assert LoggedOut(o, status).events == o.events + (ended + closed);
    assert LoggedOut(o, status).events[|o.events|..] == ended + closed;
    assert DisconnectFromHost !in ended;
    assert StreamEnded !in closed;
  }

  // ---------------------------------------------------------------------
  // The reconnect policy.
  // ---------------------------------------------------------------------

  /**
   * What socketDisconnected and socketError decide on: the status, the
   * retries made, whether authentication failed, whether a passive
   * reconnect is pending, the last socket error, and the delays of the
   * reconnect timers started so far, in order.
   */
  datatype Link = Link(status: Status, retry: int, authFailed: bool, passiveReconnect: bool,
                       lastError: SocketError, timers: seq<int>)

  const MaxRetry: int := 10

  /**
   * socketDisconnected: after a remote close a retry is started retry+1
   * seconds later, unless authentication failed or ten retries were made;
   * after any other error a pending passive reconnect is started a second
   * later, once; otherwise the status is Disconnected.
   */
  function AfterDisconnect(l: Link): (r: Link)
    ensures r.authFailed == l.authFailed && r.lastError == l.lastError
    ensures l.timers <= r.timers && |r.timers| <= |l.timers| + 1
  {
    if l.lastError == RemoteHostClosedError then
      if !l.authFailed && l.retry < MaxRetry then
        l.(status := Connecting, retry := l.retry + 1, timers := l.timers + [(l.retry + 1) * 1000])
      else l.(status := Disconnected)
    else if l.passiveReconnect then l.(passiveReconnect := false, timers := l.timers + [1000])
    else l.(status := Disconnected)
  }

  /** socketDisconnected signals the status in every branch but the passive reconnect. */
  predicate Announces(l: Link)
  {
    l.lastError == RemoteHostClosedError || !l.passiveReconnect
  }

  /** A remote close before authentication failed and before the tenth retry: a retry after retry+1 seconds. */
  lemma RemoteCloseRetries(l: Link)
    requires l.lastError == RemoteHostClosedError && !l.authFailed && l.retry < MaxRetry
    ensures var r := AfterDisconnect(l);
            && r.status == Connecting && r.retry == l.retry + 1 && r.passiveReconnect == l.passiveReconnect
            && r.timers == l.timers + [r.retry * 1000] && Announces(l)
  {
  }

  /** A remote close after authentication failed or after ten retries: Disconnected, no timer. */
  lemma RemoteCloseGivesUp(l: Link)
    requires l.lastError == RemoteHostClosedError && (l.authFailed || l.retry >= MaxRetry)
    ensures var r := AfterDisconnect(l);
            r == l.(status := Disconnected) && Announces(l)
  {
  }

  /** Any other close with a passive reconnect pending: one reconnect after a second, and it is no longer pending. */
  lemma OtherCloseReconnectsOnce(l: Link)
    requires l.lastError != RemoteHostClosedError && l.passiveReconnect
    ensures var r := AfterDisconnect(l);
            r == l.(passiveReconnect := false, timers := l.timers + [1000]) && !Announces(l)
  {
  }

  /** Any other close with no passive reconnect pending: Disconnected, no timer. */
  lemma OtherCloseDisconnects(l: Link)
    requires l.lastError != RemoteHostClosedError && !l.passiveReconnect
    ensures AfterDisconnect(l) == l.(status := Disconnected) && Announces(l)
  {
  }

  /** socketError: the error is kept; a network error also means Disconnected. */
  function AfterSocketError(l: Link, e: SocketError): (r: Link)
    ensures r.lastError == e && r.timers == l.timers && r.retry == l.retry
    ensures r.status == if e == NetworkError then Disconnected else l.status
  {
    var l1 := l.(lastError := e);
    if e == NetworkError then l1.(status := Disconnected) else l1
  }

  /** A disconnect after the remote host closed the connection. */
  function RemoteClose(l: Link): Link
  {
    AfterDisconnect(l.(lastError := RemoteHostClosedError))
  }

  /** k disconnects in a row, each after the remote host closed the connection. */
  function RemoteCloses(l: Link, k: nat): Link
    decreases k
  {
    if k == 0 then l else RemoteCloses(RemoteClose(l), k - 1)
  }

  function Min(a: int, b: int): int
  {
    if a < b then a else b
  }

  /** The delays of n retries made from retry count `from`: from+1, from+2, ... seconds. */
  function Backoff(from: int, n: nat): (r: seq<int>)
    ensures |r| == n
    decreases n
  {
    if n == 0 then [] else [(from + 1) * 1000] + Backoff(from + 1, n - 1)
  }

  /**
   * The retry policy, counts: from retry r, k remote closes make
   * min(k, 10 - r) retries; the status is Connecting while retries are
   * made and Disconnected once none is left.
   */
  lemma {:induction false} RetryCount(l: Link, k: nat)
    requires !l.authFailed && 0 <= l.retry <= MaxRetry
    ensures RemoteCloses(l, k).retry == l.retry + Min(k, MaxRetry - l.retry)
    ensures k > MaxRetry - l.retry ==> RemoteCloses(l, k).status == Disconnected
    ensures 0 < k <= MaxRetry - l.retry ==> RemoteCloses(l, k).status == Connecting
    decreases k
  {
    if k > 0 {
      RetryCount(RemoteClose(l), k - 1);
    }
  }

  /**
   * The retry policy, schedule: k remote closes from retry r start
   * retries after r+1, r+2, ... seconds, up to the tenth, and no other
   * timer.
   */
  lemma {:induction false} RetryBackoff(l: Link, k: nat)
    requires !l.authFailed && 0 <= l.retry <= MaxRetry
    ensures RemoteCloses(l, k).timers == l.timers + Backoff(l.retry, Min(k, MaxRetry - l.retry))
    decreases k
  {
    if k > 0 {
      var l1 := RemoteClose(l);
      RetryBackoff(l1, k - 1);
      if l.retry < MaxRetry {
        var rest := Backoff(l1.retry, Min(k - 1, MaxRetry - l1.retry));
        assert l.timers + [l1.retry * 1000] + rest == l.timers + ([l1.retry * 1000] + rest);
      } else {
        assert l.timers + [] == l.timers;
      }
    }
  }

  /** passiveResponse's part of the link: a reconnect is pending. */
  function LeavePassive(l: Link): Link
  {
    l.(passiveReconnect := true)
  }

  /**
   * Leaving passive mode reconnects exactly once: the disconnect that
   * follows (any error but a remote close) starts one reconnect a second
   * later, and the next such disconnect starts none and ends Disconnected.
   */
  lemma PassiveReconnectsOnce(l: Link)
    requires l.lastError != RemoteHostClosedError
    ensures var r1 := AfterDisconnect(LeavePassive(l));
            var r2 := AfterDisconnect(r1);
            && r1.timers == l.timers + [1000] && r1.status == l.status && !r1.passiveReconnect
            && r2.status == Disconnected && r2.timers == r1.timers
  {
    OtherCloseReconnectsOnce(LeavePassive(l));
    OtherCloseDisconnects(AfterDisconnect(LeavePassive(l)));
  }

  // ---------------------------------------------------------------------
  // The passive-sync countdown.
  // ---------------------------------------------------------------------

  /** The passive login's bookkeeping: the mode, the replies still awaited, and whether the groups were fetched. */
  datatype Countdown = Countdown(passive: bool, count: int, groupsFetched: bool)

  /** The list a handler asks for next. */
  datatype Next = Nothing | AskGroups | AskBroadcasts

  datatype Tick = Tick(after: Countdown, next: Next)

  /**
   * One awaited reply counted, while passive: the reply that brings the
   * count to zero asks for the next list, and when re-armed the count goes
   * back to one for that list's reply.
   */
  function CountDown(c: Countdown, atZero: Next, rearm: bool): (t: Tick)
    ensures !c.passive ==> t == Tick(c, Nothing)
    ensures t.after.passive == c.passive && t.after.groupsFetched == c.groupsFetched
    ensures c.passive ==> (t.next != Nothing <==> c.count == 1 && atZero != Nothing)
    ensures c.passive ==> t.after.count == if c.count == 1 && rearm then 1 else c.count - 1
  {
    if !c.passive then Tick(c, Nothing)
    else if c.count - 1 == 0 then Tick(c.(count := if rearm then 1 else 0), atZero)
    else Tick(c.(count := c.count - 1), Nothing)
  }

  /** contactsStatuses and featureResponse: at zero the groups are asked for. */
  function ToGroups(c: Countdown): Tick
  {
    CountDown(c, AskGroups, true)
  }

  /** contactPicture and contactsPicrureIds: at zero the groups, or the broadcast lists once the groups are in. */
  function ToNext(c: Countdown): Tick
  {
    CountDown(c, if c.groupsFetched then AskBroadcasts else AskGroups, true)
  }

  /** groupsResponse: at zero the broadcast lists, and the count stays at zero. */
  function ToBroadcasts(c: Countdown): Tick
  {
    CountDown(c, AskBroadcasts, false)
  }

  /** syncResponse: while passive, contacts found restart the count at two; one more reply (the features) is awaited and the groups are due again. */
  function AfterSync(c: Countdown, synced: bool): (r: Countdown)
    ensures !c.passive ==> r == c
    ensures c.passive ==> r == Countdown(true, if synced then 3 else c.count + 1, false)
  {
    var c1 := if synced && c.passive then c.(count := 2, groupsFetched := false) else c;
    if c.passive then c1.(count := c1.count + 1, groupsFetched := false) else c1
  }

  /** groupsResponse: while passive, groups found are one more reply to await (their picture ids), and the groups are fetched. */
  function AfterGroups(c: Countdown, found: bool): Countdown
  {
    if c.passive && found then c.(count := c.count + 1, groupsFetched := true) else c
  }

  /** contactsPicrureIds: while passive, each picture asked for is one more reply to await. */
  function AfterPictureIds(c: Countdown, pictures: nat): Countdown
  {
    if c.passive then c.(count := c.count + pictures) else c
  }

  /** k replies counted with a re-armed countdown: the countdown after them and what each asked for. */
  function Run(c: Countdown, atZero: Next, k: nat): (Countdown, seq<Next>)
    decreases k
  {
    if k == 0 then (c, [])
    else
      var t := CountDown(c, atZero, true);
      var rest := Run(t.after, atZero, k - 1);
      (rest.0, [t.next] + rest.1)
  }

  function Nothings(n: nat): (r: seq<Next>)
    ensures |r| == n && forall i :: 0 <= i < n ==> r[i] == Nothing
  {
    if n == 0 then [] else [Nothing] + Nothings(n - 1)
  }

  /**
   * With k awaited replies, only the k-th asks for the next list, and the
   * count is re-armed at one; fewer replies ask for nothing.
   */
  lemma {:induction false} CountdownAsksOnce(c: Countdown, atZero: Next, k: nat)
    requires c.passive && 1 <= k <= c.count
    ensures Run(c, atZero, k).1 == Nothings(k - 1) + [if k == c.count then atZero else Nothing]
    ensures Run(c, atZero, k).0 == c.(count := if k == c.count then 1 else c.count - k)
    decreases k
  {
    var t := CountDown(c, atZero, true);
    if k > 1 {
      CountdownAsksOnce(t.after, atZero, k - 1);
      assert [Nothing] + Nothings(k - 2) == Nothings(k - 1);
    }
  }

  /**
   * The passive login's chain of lists. After a sync that found contacts
   * three replies are awaited (features, statuses and a picture-id list
   * with no picture to fetch); the third asks for the groups. When groups
   * come back the count covers their picture ids; a picture-id reply that
   * asks for n pictures leaves those n to await, and the last picture
   * reply asks for the broadcast lists.
   */
  lemma PassiveChain(count: int, n: nat)
    ensures var c0 := AfterSync(Countdown(true, count, false), true);
            var (c1, asks1) := Run(c0, AskGroups, 3);
            var c2 := AfterGroups(c1, true);
            var t3 := ToBroadcasts(c2);
            var t4 := ToNext(AfterPictureIds(t3.after, n));
            && asks1 == [Nothing, Nothing, AskGroups]
            && c2 == Countdown(true, 2, true)
            && t3 == Tick(Countdown(true, 1, true), Nothing)
            && (n == 0 ==> t4.next == AskBroadcasts)
            && (n > 0 ==> t4 == Tick(Countdown(true, n, true), Nothing)
                          && Run(t4.after, AskBroadcasts, n).1 == Nothings(n - 1) + [AskBroadcasts])
  {
    var c0 := AfterSync(Countdown(true, count, false), true);
    CountdownAsksOnce(c0, AskGroups, 3);
    assert Nothings(2) == [Nothing, Nothing];
    if n > 0 {
      CountdownAsksOnce(Countdown(true, n, true), AskBroadcasts, n);
    }
  }

  // ---------------------------------------------------------------------
  // What the handlers take from a reply.
  // ---------------------------------------------------------------------

  /**
   * The jids whose pictures contactsPicrureIds asks for: users without a
   * picture id, and every user while passive. The children are a QMultiMap
   * under one tag, which iterates the most recently added first, so the
   * result runs from the last child to the first.
   */
  function PicturesToFetch(users: seq<Node>, passive: bool): (r: seq<string>)
    ensures |r| <= |users|
    ensures forall k :: 0 <= k < |users| && users[k].tag == "user" && (passive || "id" !in users[k].attributes) ==>
              AttributeValue(users[k], "jid") in r
    ensures forall j :: j in r ==> exists k :: 0 <= k < |users| && users[k].tag == "user" && AttributeValue(users[k], "jid") == j
                                                 && (passive || "id" !in users[k].attributes)
    decreases |users|
  {
    if |users| == 0 then []
    else
      var u := users[0];
      assert forall k :: 0 < k < |users| ==> users[1..][k - 1] == users[k];
      PicturesToFetch(users[1..], passive) + (if u.tag == "user" && (passive || "id" !in u.attributes) then [AttributeValue(u, "jid")] else [])
  }

  /** Children added later are asked for earlier: the picture list of a + b is that of b, then that of a. */
  lemma {:induction false} PicturesLaterFirst(a: seq<Node>, b: seq<Node>, passive: bool)
    ensures PicturesToFetch(a + b, passive) == PicturesToFetch(b, passive) + PicturesToFetch(a, passive)
    decreases |a|
  {
    if |a| > 0 {
      var u := a[0];
      var t := if u.tag == "user" && (passive || "id" !in u.attributes) then [AttributeValue(u, "jid")] else [];
      assert (a + b)[0] == u && (a + b)[1..] == a[1..] + b;
      assert PicturesToFetch(a + b, passive) == PicturesToFetch(a[1..] + b, passive) + t;
      assert PicturesToFetch(a, passive) == PicturesToFetch(a[1..], passive) + t;
      PicturesLaterFirst(a[1..], b, passive);
    } else {
      assert a + b == b;
    }
  }

  /** The most recently added user, when its picture is fetched, is the first one asked for. */
  lemma NewestPictureFirst(users: seq<Node>, u: Node, passive: bool)
    requires u.tag == "user" && (passive || "id" !in u.attributes)
    ensures var r := PicturesToFetch(users + [u], passive);
            |r| > 0 && r[0] == AttributeValue(u, "jid")
  {
    PicturesLaterFirst(users, [u], passive);
    assert [u][1..] == [];
  }

  /** The jids of the "user" children, in order. */
  function UserJids(users: seq<Node>): (r: seq<string>)
    ensures forall k :: 0 <= k < |users| && users[k].tag == "user" ==> AttributeValue(users[k], "jid") in r
    ensures forall j :: j in r ==> exists k :: 0 <= k < |users| && users[k].tag == "user" && AttributeValue(users[k], "jid") == j
    decreases |users|
  {
    if |users| == 0 then []
    else
      var init := users[..|users| - 1];
      var u := users[|users| - 1];
      assert forall k :: 0 <= k < |init| ==> init[k] == users[k];
      UserJids(init) + (if u.tag == "user" then [AttributeValue(u, "jid")] else [])
  }

  /** The keys of syncResponse's map: the jids of the users under sync/in, ascending, once each. */
  function SyncedJids(node: Node): seq<string>
  {
    var sync := GetChild(node.children, "sync");
    if HasChild(sync.children, "in") then Keys(UserJids(GetChild(sync.children, "in").children)) else []
  }

  /** Every user under sync/in is among the synced jids, and nothing else is. */
  lemma SyncedJidsAreUsers(node: Node, jid: string)
    requires HasChild(node.children, "sync") && HasChild(GetChild(node.children, "sync").children, "in")
    ensures var users := GetChild(GetChild(node.children, "sync").children, "in").children;
            jid in SyncedJids(node) <==> exists k :: 0 <= k < |users| && users[k].tag == "user" && AttributeValue(users[k], "jid") == jid
  {
    var users := GetChild(GetChild(node.children, "sync").children, "in").children;
    var jids := UserJids(users);
    KeysAscending(jids);
    assert SyncedJids(node) == Keys(jids);
    if jid !in jids {
      forall k | 0 <= k < |users| && users[k].tag == "user"
        ensures AttributeValue(users[k], "jid") != jid
      {
        assert AttributeValue(users[k], "jid") in jids;
      }
    }
  }

  /** "<id>@g.us" for each group, in order. */
  function GroupIds(groups: seq<Node>): (r: seq<string>)
    ensures |r| == |groups|
    decreases |groups|
  {
    if |groups| == 0 then [] else GroupIds(groups[..|groups| - 1]) + [AttributeValue(groups[|groups| - 1], "id") + "@g.us"]
  }

  /** The keys of groupsResponse's map: the groups' jids, ascending, once each. */
  function GroupJids(groups: seq<Node>): seq<string>
  {
    Keys(GroupIds(groups))
  }

  /** groupsResponse asks for picture ids exactly when the reply lists a group; every group's jid is asked for once. */
  lemma GroupJidsOfGroups(groups: seq<Node>)
    ensures |GroupJids(groups)| > 0 <==> |groups| > 0
    ensures Ascending(GroupJids(groups))
    ensures forall j :: j in GroupJids(groups) <==> j in GroupIds(groups)
  {
    KeysAscending(GroupIds(groups));
    if |groups| > 0 {
      assert GroupIds(groups)[0] in GroupIds(groups);
    }
  }

  // ---------------------------------------------------------------------
  // The request builders' stanzas.
  // ---------------------------------------------------------------------

  function Child(tag: string): Node
  {
    Node(tag, map[], [], [], 0)
  }

  function UserNode(jid: string): (r: Node)
    ensures r.tag == "user" && AttributeValue(r, "jid") == jid && r.children == []
  {
    Node("user", map["jid" := jid], [], [], 0)
  }

  /** A "user" node for each jid, in order. */
  function Users(jids: seq<string>): (r: seq<Node>)
    ensures |r| == |jids|
    ensures forall i :: 0 <= i < |jids| ==> r[i] == UserNode(jids[i])
    decreases |jids|
  {
    if |jids| == 0 then [] else Users(jids[..|jids| - 1]) + [UserNode(jids[|jids| - 1])]
  }

  /** The jids that contain an '@', in order. */
  function WithAt(jids: seq<string>): (r: seq<string>)
    ensures forall j :: j in r <==> j in jids && '@' in j
    decreases |jids|
  {
    if |jids| == 0 then []
    else
      var init := jids[..|jids| - 1];
      assert jids == init + [jids[|jids| - 1]];
      WithAt(init) + (if '@' in jids[|jids| - 1] then [jids[|jids| - 1]] else [])
  }

  /** The header of an iq: exactly a type, an addressee and a namespace. */
  predicate IqHeader(attrs: Attributes, iqType: string, to: string, xmlns: string)
  {
    attrs.Keys == {"type", "to", "xmlns"} && attrs["type"] == iqType && attrs["to"] == to && attrs["xmlns"] == xmlns
  }

  const GroupsQuery: Attributes := map["type" := "get", "to" := "g.us", "xmlns" := "w:g2"]

  function BroadcastsQuery(domain: string): (r: Attributes)
    ensures IqHeader(r, "get", domain, "w:b")
  {
    map["xmlns" := "w:b", "type" := "get", "to" := domain]
  }

  function PictureQuery(jid: string): (r: Attributes)
    ensures IqHeader(r, "get", jid, "w:profile:picture")
  {
    map["type" := "get", "to" := jid, "xmlns" := "w:profile:picture"]
  }

  const PictureChild: Node := Node("picture", map["type" := "image"], [], [], 0)

  function PictureIdsQuery(domain: string): (r: Attributes)
    ensures IqHeader(r, "get", domain, "w:profile:picture")
  {
    map["to" := domain, "type" := "get", "xmlns" := "w:profile:picture"]
  }

  /** sendGetPictureIds' list: one "user" per jid with an '@'. */
  function PictureIdsList(jids: seq<string>): (r: Node)
    ensures r.tag == "list"
    ensures forall c :: c in r.children ==> c.tag == "user" && AttributeValue(c, "jid") in jids && '@' in AttributeValue(c, "jid")
    ensures forall j :: j in jids && '@' in j ==> UserNode(j) in r.children
  {
    Node("list", map[], [], Users(WithAt(jids)), 0)
  }

  function StatusesQuery(domain: string): (r: Attributes)
    ensures IqHeader(r, "get", domain, "status")
  {
    map["to" := domain, "type" := "get", "xmlns" := "status"]
  }

  /** sendGetStatuses' list: one "user" per jid with an '@'. */
  function StatusList(jids: seq<string>): (r: Node)
    ensures r.tag == "status"
    ensures forall c :: c in r.children ==> c.tag == "user" && AttributeValue(c, "jid") in jids && '@' in AttributeValue(c, "jid")
    ensures forall j :: j in jids && '@' in j ==> UserNode(j) in r.children
  {
    Node("status", map[], [], Users(WithAt(jids)), 0)
  }

  function FeaturesQuery(domain: string): (r: Attributes)
    ensures IqHeader(r, "get", domain, "features")
  {
    map["xmlns" := "features", "type" := "get", "to" := domain]
  }

  /** sendGetFeatures' child: a "feature" node holding a "list" of one "user" per jid. */
  function FeatureList(jids: seq<string>): (r: Node)
    ensures r.tag == "feature" && |r.children| == 1 && r.children[0].tag == "list"
    ensures |r.children[0].children| == |jids|
    ensures forall i :: 0 <= i < |jids| ==> r.children[0].children[i] == UserNode(jids[i])
  {
    Node("feature", map[], [], [Node("list", map[], [], Users(jids), 0)], 0)
  }

  function PingQuery(domain: string): (r: Attributes)
    ensures IqHeader(r, "get", domain, "w:p")
  {
    map["to" := domain, "type" := "get", "xmlns" := "w:p"]
  }

  function PassiveQuery(domain: string): (r: Attributes)
    ensures IqHeader(r, "set", domain, "passive")
  {
    map["type" := "set", "xmlns" := "passive", "to" := domain]
  }

  const PrivacyQuery: Attributes := map["type" := "get", "xmlns" := "jabber:iq:privacy"]

  const PrivacyChild: Node := Node("query", map[], [], [Node("list", map["name" := "default"], [], [], 0)], 0)

  function PushConfigQuery(domain: string): (r: Attributes)
    ensures IqHeader(r, "get", domain, "urn:xmpp:whatsapp:push")
  {
    map["type" := "get", "to" := domain, "xmlns" := "urn:xmpp:whatsapp:push"]
  }

  function LastSeenQuery(jid: string): (r: Attributes)
    ensures IqHeader(r, "get", jid, "jabber:iq:last")
  {
    map["type" := "get", "to" := jid, "xmlns" := "jabber:iq:last"]
  }

  const SyncQuery: Attributes := map["xmlns" := "urn:xmpp:whatsapp:sync", "type" := "get"]

  /** sendSync's "user" nodes for the numbers: each with every 'p' removed, and a '+' variant when it has none. */
  function SyncUsers(numbers: seq<string>): (r: seq<Node>)
    ensures |numbers| <= |r| <= 2 * |numbers|
    ensures forall k :: 0 <= k < |r| ==> r[k].tag == "user" && r[k].attributes == map[] && r[k].children == []
    decreases |numbers|
  {
    if |numbers| == 0 then []
    else
      var number := WithoutP(numbers[0]);
      [Node("user", map[], Latin1(number), [], 0)]
        + (if StartsWith(number, "+") then [] else [Node("user", map[], Latin1("+" + number), [], 0)])
        + SyncUsers(numbers[1..])
  }

  /** Every number goes out with its 'p's removed, in Latin-1, and again with a '+' in front when it has none. */
  lemma {:induction false} SyncUsersCarry(numbers: seq<string>, i: nat)
    requires i < |numbers|
    ensures var number := WithoutP(numbers[i]);
            && Node("user", map[], Latin1(number), [], 0) in SyncUsers(numbers)
            && (!StartsWith(number, "+") ==> Node("user", map[], Latin1("+" + number), [], 0) in SyncUsers(numbers))
    decreases i
  {
    if i > 0 {
      SyncUsersCarry(numbers[1..], i - 1);
      assert numbers[1..][i - 1] == numbers[i];
    }
  }

  /** QString::remove("p"): every 'p' taken out. */
  function WithoutP(s: string): (r: string)
    ensures 'p' !in r && |r| <= |s|
    decreases |s|
  {
    if |s| == 0 then [] else (if s[0] == 'p' then [] else [s[0]]) + WithoutP(s[1..])
  }

  /** sendSync's "user" nodes for the jids to delete. */
  function DeleteUsers(jids: seq<string>): (r: seq<Node>)
    ensures |r| == |jids|
    decreases |jids|
  {
    if |jids| == 0 then [] else [Node("user", map["jid" := jids[0], "type" := "delete"], [], [], 0)] + DeleteUsers(jids[1..])
  }

  /** sendSync's "sync" node; the session id is made from a random UUID, taken here as a parameter. */
  function SyncNode(numbers: seq<string>, deleteJids: seq<string>, syncType: int, index: nat, last: bool, uuid: string): (r: Node)
    ensures AttributeValue(r, "mode") == SyncMode(syncType).0 && AttributeValue(r, "context") == SyncMode(syncType).1
    ensures r.children == SyncUsers(numbers) + DeleteUsers(deleteJids)
  {
    var (mode, context) := SyncMode(syncType);
    Node("sync", map["mode" := mode, "context" := context, "index" := Number(index, 10),
                     "last" := (if last then "true" else "false"), "sid" := "sync_sid_" + mode + "_" + uuid],
         [], SyncUsers(numbers) + DeleteUsers(deleteJids), 0)
  }

  /** The request a countdown that reached zero makes: the participating groups, or the broadcast lists. */
  function Asked(o: Outbox, next: Next, domain: string): (r: Outbox)
    ensures r.open == o.open && o.events <= r.events
    ensures r.iqid == if next == Nothing then o.iqid else Next32(o.iqid)
  {
    match next
    case Nothing => o
    case AskGroups => Request(o, GroupsQuery, Child("participating"), "groupsResponse")
    case AskBroadcasts => Request(o, BroadcastsQuery(domain), Child("lists"), "broadcastsResponse")
  }

  /** sendGetPicture for each jid in order: one request each, every reply bound to contactPicture. */
  function RequestPictures(o: Outbox, jids: seq<string>): (r: Outbox)
    ensures r.open == o.open && r.iqid == Advance(o.iqid, |jids|) && o.events <= r.events
    ensures !o.open ==> r.bindStore == o.bindStore && r.events == o.events
    decreases |jids|
  {
    if |jids| == 0 then o
    else
      var r0 := RequestPictures(o, jids[..|jids| - 1]);
      Request(r0, PictureQuery(jids[|jids| - 1]), PictureChild, "contactPicture")
  }

  /**
   * Fewer than 2^32 picture requests made in a row give each its own id,
   * and each of those ids waits for contactPicture.
   */
  lemma {:induction false} PicturesBound(o: Outbox, jids: seq<string>)
    requires o.open && |jids| < Modulus32
    ensures var r := RequestPictures(o, jids);
            forall i :: 1 <= i <= |jids| ==> IdAt(o.iqid, i) in r.bindStore && r.bindStore[IdAt(o.iqid, i)] == "contactPicture"
    decreases |jids|
  {
    if |jids| > 0 {
      var n := |jids|;
      var r0 := RequestPictures(o, jids[..n - 1]);
      PicturesBound(o, jids[..n - 1]);
      var r := RequestPictures(o, jids);
      assert IdAt(r0.iqid, 1) == IdAt(o.iqid, n);
      assert r.bindStore == r0.bindStore[IdAt(o.iqid, n) := "contactPicture"];
      forall i | 1 <= i <= n
        ensures IdAt(o.iqid, i) in r.bindStore && r.bindStore[IdAt(o.iqid, i)] == "contactPicture"
      {
        if i < n {
          IdsNeverRepeat(o.iqid, i, n);
        }
      }
    }
  }

  // ---------------------------------------------------------------------
  // Login stanzas and the authentication blob.
  // ---------------------------------------------------------------------

  /** The stream features tryLogin announces. */
  const FeaturesNode: Node :=
    Node("stream:features", map[], [], [Child("readreceipts"), Child("groups_v2"), Child("privacy"), Child("presence")], 0)

  /** sendAuth's stanza: the passive flag, the mechanism and the user, and the blob as its data. */
  function AuthNode(passive: bool, username: string, data: bytes): (r: Node)
    ensures r.tag == "auth" && r.data == data
    ensures AttributeValue(r, "mechanism") == "WAUTH-2" && AttributeValue(r, "user") == username
    ensures "passive" in r.attributes <==> passive
  {
    var attrs: Attributes := if passive then map["passive" := "true"] else map[];
    Node("auth", attrs["mechanism" := "WAUTH-2"]["user" := username], data, [], 0)
  }

  /** Four zero octets, the user name, the nonce and the time in decimal milliseconds. */
  function AuthPlain(username: string, nonce: bytes, nowMs: nat): (r: bytes)
    ensures |r| >= 4 && r[..4] == [0, 0, 0, 0]
    ensures r[4..] == Utf8(username) + nonce + Utf8(Number(nowMs, 10))
  {
    var head: bytes := [0, 0, 0, 0];
    var tail := Utf8(username) + nonce + Utf8(Number(nowMs, 10));
    assert (head + tail)[..4] == head && (head + tail)[4..] == tail;
    head + tail
  }

  /**
   * getAuthBlob: the keys from the password and nonce, then the plain blob
   * encoded by a fresh outgoing stream (key 0 for RC4, key 1 for the MAC)
   * from offset 4 with the tag written at 0. The key derivation throws for
   * an empty password.
   */
  function AuthBlob(sha1: Sha1, rc4: Rc4, password: bytes, username: string, nonce: bytes, nowMs: nat): (r: Result<bytes>)
    ensures r.Success? <==> |password| > 0
  {
    var keys := SessionKeys(sha1, password, nonce);
    if keys.Failure? then Failure(keys.error)
    else
      var plain := AuthPlain(username, nonce, nowMs);
      Success(Encoded(rc4(keys.value[0]), Drop, sha1, keys.value[1], 0, plain, 0, 4, |plain| - 4))
  }

  /**
   * The blob's layout: the tag of the first outgoing frame (sequence number
   * 0), then the rest ciphered from the stream's start; deciphering that
   * rest gives the user name, nonce and time back.
   */
  lemma AuthBlobLayout(sha1: Sha1, rc4: Rc4, password: bytes, username: string, nonce: bytes, nowMs: nat)
    requires |password| > 0
    ensures var keys := SessionKeys(sha1, password, nonce).value;
            var blob := AuthBlob(sha1, rc4, password, username, nonce, nowMs).value;
            var ct := Crypt(rc4(keys[0]), Drop, Utf8(username) + nonce + Utf8(Number(nowMs, 10)));
            && |blob| == 4 + |Utf8(username)| + |nonce| + |Utf8(Number(nowMs, 10))|
            && blob[4..] == ct
            && blob[..4] == QtHmac(sha1, keys[1], ProcessBuffer(ct, 0))[..4]
            && Crypt(rc4(keys[0]), Drop, blob[4..]) == Utf8(username) + nonce + Utf8(Number(nowMs, 10))
  {
    var keys := SessionKeys(sha1, password, nonce).value;
    var plain := AuthPlain(username, nonce, nowMs);
    var rest := Utf8(username) + nonce + Utf8(Number(nowMs, 10));
    var stream := rc4(keys[0]);
    var n := |plain|;
    assert plain[4..n] == rest;
    var ct := plain[..4] + Crypt(stream, Drop, plain[4..n]) + plain[n..];
    assert ct[4..n] == Crypt(stream, Drop, rest);
    var tag := QtHmac(sha1, keys[1], ProcessBuffer(ct[4..n], 0))[..4];
    var blob := ct[..0] + tag + ct[4..];
    assert blob == AuthBlob(sha1, rc4, password, username, nonce, nowMs).value;
    assert blob[4..] == ct[4..n];
    assert blob[..4] == tag;
    CryptInvolutive(stream, Drop, rest);
  }

  /**
   * sendAuth: without a stored nonce the auth stanza goes out bare; with
   * one it carries the blob and the writer is ciphered from then on. A
   * blob that throws ends sendAuth before anything is sent.
   */
  function AuthSent(o: Outbox, passive: bool, username: string, nonce: bytes, blob: Result<bytes>): (r: Outbox)
    ensures r.open == o.open && r.iqid == o.iqid && r.bindStore == o.bindStore && o.events <= r.events
    ensures |nonce| > 0 && blob.Failure? ==> r == o
  {
    if |nonce| == 0 then Send(o, AuthNode(passive, username, []))
    else if blob.Failure? then o
    else Emit(Send(o, AuthNode(passive, username, blob.value)), CryptoEnabled)
  }

  /** The writer is ciphered exactly when a nonce is stored and its blob was made, and the stanza sent carries that blob. */
  lemma SendAuthEffects(o: Outbox, passive: bool, username: string, nonce: bytes, blob: Result<bytes>)
    ensures var r := AuthSent(o, passive, username, nonce, blob);
            && r.open == o.open && r.iqid == o.iqid && r.bindStore == o.bindStore && o.events <= r.events
            && (CryptoEnabled in r.events[|o.events|..] <==> |nonce| > 0 && blob.Success?)
            && (|nonce| == 0 ==> r.events[|o.events|..] == if o.open then [Wrote(AuthNode(passive, username, []))] else [])
            && (|nonce| > 0 && blob.Success? ==>
                  r.events[|o.events|..] == (if o.open then [Wrote(AuthNode(passive, username, blob.value))] else []) + [CryptoEnabled])
            && (|nonce| > 0 && blob.Failure? ==> r == o)
  {
    var r := AuthSent(o, passive, username, nonce, blob);
    var node := AuthNode(passive, username, if |nonce| == 0 || blob.Failure? then [] else blob.value);
    var written := if o.open then [Wrote(node)] else [];
    if |nonce| == 0 {
      assert r.events == o.events + written;
    } else if blob.Success? {
      assert r.events == o.events + (written + [CryptoEnabled]);
    }
    assert r.events[|o.events|..] == if |nonce| == 0 then written else if blob.Success? then written + [CryptoEnabled] else [];
  }

  /** sendResponse: the blob in a "response" stanza, then the writer is ciphered; a blob that throws sends nothing. */
  function Respond(o: Outbox, blob: Result<bytes>): (r: Outbox)
    ensures r.open == o.open && r.iqid == o.iqid && r.bindStore == o.bindStore && o.events <= r.events
    ensures blob.Failure? <==> r == o
  {
    if blob.Failure? then o
    else Emit(Send(o, Node("response", map[], blob.value, [], 0)), CryptoEnabled)
  }

  /** A challenge is answered with its blob, once, and the writer ciphered after it; a blob that throws sends nothing. */
  lemma RespondEffects(o: Outbox, blob: Result<bytes>)
    ensures var r := Respond(o, blob);
            && r.open == o.open && r.iqid == o.iqid && r.bindStore == o.bindStore && o.events <= r.events
            && (blob.Failure? ==> r == o)
            && (blob.Success? ==>
                  r.events[|o.events|..] == (if o.open then [Wrote(Node("response", map[], blob.value, [], 0))] else []) + [CryptoEnabled])
  {
    if blob.Success? {
      var r := Respond(o, blob);
      assert r.events == o.events + (if o.open then [Wrote(Node("response", map[], blob.value, [], 0))] else []) + [CryptoEnabled];
    }
  }

  /** sendResult: the answer to a server ping, with the ping's id. */
  function ResultNode(id: string, domain: string): Node
  {
    Node("iq", map["id" := id, "type" := "result", "to" := domain], [], [], 0)
  }

  // ---------------------------------------------------------------------
  // parseSuccessNode.
  // ---------------------------------------------------------------------

  /**
   * The server's clock minus ours, as the difference of two `uint`s: it
   * wraps, so a server behind us gives 2^32 less the gap.
   */
  function TimeCorrection(node: Node, now: uint32): (r: uint32)
    ensures var t := ToUnsigned(AttributeValue(node, "t"), Modulus32);
            && (t >= now ==> r == t - now)
            && (t < now ==> r == Modulus32 - (now - t))
  {
    WrappedDifference(ToUnsigned(AttributeValue(node, "t"), Modulus32), now)
  }

  /** The difference of two `uint`s: it wraps around 2^32. */
  function WrappedDifference(a: uint32, b: uint32): (r: uint32)
    ensures a >= b ==> r == a - b
    ensures a < b ==> r == Modulus32 - (b - a)
  {
    var d := a as int - b as int;
    assert a < b ==> d == (Modulus32 - (b - a)) - Modulus32;
    d % Modulus32
  }

  /** The success stanza announces an expired account. */
  predicate Expired(node: Node)
    ensures Expired(node) ==> "status" in node.attributes && node.attributes["status"] == "expired"
  {
    AttributeValue(node, "status") == "expired"
  }

  /** The account data authSuccess carries: the success stanza's attributes and the next nonce in base64. */
  function SuccessData(node: Node): (r: Attributes)
    ensures "nextChallenge" in r && r["nextChallenge"] == Text(Base64(node.data))
    ensures forall k :: k in node.attributes && k != "nextChallenge" ==> k in r && r[k] == node.attributes[k]
  {
    node.attributes["nextChallenge" := Text(Base64(node.data))]
  }

  /** Whether an active login uploads its pre-keys: not for S40 resources, and only when the store has none. */
  predicate UploadsPreKeys(passive: bool, resource: string, noPreKeys: bool)
    ensures UploadsPreKeys(passive, resource, noPreKeys) ==> !passive && noPreKeys
  {
    !passive && !StartsWith(resource, "S40") && noPreKeys
  }

  /** sendEncrypt as far as the connection goes: an "encrypt" iq with the next id, bound to encryptionReply; the keys it carries are not modelled. */
  function EncryptRequest(o: Outbox): (r: Outbox)
    ensures r.open == o.open && r.iqid == Next32(o.iqid) && o.events <= r.events
    ensures o.open ==> IdAt(o.iqid, 1) in r.bindStore && r.bindStore[IdAt(o.iqid, 1)] == "encryptionReply"
  {
    var o1 := o.(iqid := Next32(o.iqid));
    if o1.open then Emit(o1.(bindStore := o1.bindStore[IdAt(o.iqid, 1) := "encryptionReply"]), PreKeysSent(IdAt(o.iqid, 1))) else o1
  }

  /** A request on an open socket binds exactly its own id to its handler. */
  lemma RequestBinds(o: Outbox, attrs: Attributes, child: Node, member: string)
    requires o.open
    ensures Request(o, attrs, child, member).bindStore == o.bindStore[IdAt(o.iqid, 1) := member]
  {
    assert AttributeValue(IqNode(attrs, IdAt(o.iqid, 1), child), "id") == IdAt(o.iqid, 1);
  }

  /** The requests after authSuccess: the privacy list and the push configuration, then a ping unless passive. */
  function Followups(o: Outbox, passive: bool, domain: string): (r: Outbox)
    ensures r.open == o.open && o.events <= r.events
    ensures r.iqid == Advance(o.iqid, if passive then 2 else 3)
  {
    var o2 := Request(Request(o, PrivacyQuery, PrivacyChild, "privacyList"), PushConfigQuery(domain), Child("config"), "pushConfig");
    if passive then o2 else Request(o2, PingQuery(domain), Child("ping"), "onPong")
  }

  /** On an open socket the follow-up requests bind their ids, in order, to their handlers. */
  lemma FollowupsBind(o: Outbox, passive: bool, domain: string)
    requires o.open
    ensures var r := Followups(o, passive, domain);
            r.bindStore == if passive then o.bindStore[IdAt(o.iqid, 1) := "privacyList"][IdAt(o.iqid, 2) := "pushConfig"]
                           else o.bindStore[IdAt(o.iqid, 1) := "privacyList"][IdAt(o.iqid, 2) := "pushConfig"][IdAt(o.iqid, 3) := "onPong"]
  {
    var o1 := Request(o, PrivacyQuery, PrivacyChild, "privacyList");
    var o2 := Request(o1, PushConfigQuery(domain), Child("config"), "pushConfig");
    RequestBinds(o, PrivacyQuery, PrivacyChild, "privacyList");
    RequestBinds(o1, PushConfigQuery(domain), Child("config"), "pushConfig");
    if !passive {
      RequestBinds(o2, PingQuery(domain), Child("ping"), "onPong");
    }
  }

  /**
   * parseSuccessNode past the expiry check: the pre-keys when due (see
   * UploadsPreKeys), the authSuccess signal, the follow-up requests, and
   * then the Initiaization status (passive) or the LoggedIn status.
   */
  function Succeeded(o: Outbox, node: Node, passive: bool, preKeys: bool, domain: string): (r: Outbox)
    ensures r.open == o.open && |r.events| > 0
    ensures r.events[|r.events| - 1] == StatusChanged(if passive then Initiaization else LoggedIn)
  {
    var o1 := if preKeys then EncryptRequest(o) else o;
    Emit(Followups(Emit(o1, AuthSuccess(SuccessData(node))), passive, domain), StatusChanged(if passive then Initiaization else LoggedIn))
  }

  /** A successful login signals authSuccess with the account data and ends by announcing the new status. */
  lemma SuccessSignals(o: Outbox, node: Node, passive: bool, preKeys: bool, domain: string)
    ensures var r := Succeeded(o, node, passive, preKeys, domain);
            && o.events < r.events
            && AuthSuccess(SuccessData(node)) in r.events[|o.events|..]
            && r.events[|r.events| - 1] == StatusChanged(if passive then Initiaization else LoggedIn)
  {
    hide EncryptRequest, Followups, SuccessData;
    var o1 := if preKeys then EncryptRequest(o) else o;
    var o2 := Emit(o1, AuthSuccess(SuccessData(node)));
    var f := Followups(o2, passive, domain);
    assert o.events <= o1.events && o2.events == o1.events + [AuthSuccess(SuccessData(node))];
    assert o2.events <= f.events;
    assert f.events[|o1.events|] == AuthSuccess(SuccessData(node));
    var r := Emit(f, StatusChanged(if passive then Initiaization else LoggedIn));
    assert r.events[|o.events|..][|o1.events| - |o.events|] == AuthSuccess(SuccessData(node));
  }

  /** A successful login uses one id per request it makes: the pre-keys when due, two follow-ups, and a ping unless passive. */
  lemma SuccessIds(o: Outbox, node: Node, passive: bool, preKeys: bool, domain: string)
    ensures Succeeded(o, node, passive, preKeys, domain).iqid == Advance(o.iqid, (if preKeys then 1 else 0) + (if passive then 2 else 3))
  {
    var k := if preKeys then 1 else 0;
    var o1 := if preKeys then EncryptRequest(o) else o;
    assert o1.iqid == Advance(o.iqid, k);
    AdvanceAdd(o.iqid, k, if passive then 2 else 3);
  }

  // ---------------------------------------------------------------------
  // Text messages.
  // ---------------------------------------------------------------------

  /** getMessageNode: a "message" stanza of a type to a jid, with the given id. */
  function MessageNode(jid: string, messageType: string, id: string): (r: Node)
    ensures r.tag == "message" && r.children == [] && r.data == []
    ensures AttributeValue(r, "to") == jid && AttributeValue(r, "id") == id && AttributeValue(r, "type") == messageType
  {
    Node("message", map["id" := id, "type" := messageType, "to" := jid], [], [], 0)
  }

  /** getTextBody: the text as UTF-8 in a "body" node. */
  function TextBody(text: string): (r: Node)
    ensures r.tag == "body" && r.children == [] && r.attributes == map[]
    ensures r.data == Utf8(text) && |r.data| >= |text|
  {
    Node("body", map[], Utf8(text), [], 0)
  }

  /** sendText sends the body in the clear for S40 resources, for jids outside the domain and for jids marked to skip encoding. */
  predicate InClear(resource: string, domain: string, skipEncoding: set<string>, jid: string)
    ensures !InClear(resource, domain, skipEncoding, jid) ==> Contains(jid, domain) && jid !in skipEncoding
  {
    StartsWith(resource, "S40") || !Contains(jid, domain) || jid in skipEncoding
  }

  /** The message sendText writes in the clear: the message stanza with the body as its one child. */
  function TextMessage(jid: string, id: string, text: string): (r: Node)
    ensures r.tag == "message" && AttributeValue(r, "id") == id && AttributeValue(r, "to") == jid
    ensures GetChild(r.children, "body").data == Utf8(text)
  {
    MessageNode(jid, "text", id).(children := [TextBody(text)])
  }

  // ---------------------------------------------------------------------
  // read()'s guard.
  // ---------------------------------------------------------------------

  /** How a read that got past the guard ended: a stanza handled, a frame that did not decode, or a handler that threw. */
  datatype Outcome = Decoded | Undecodable | Threw

  /** What read() returns, whether its guard is still set afterwards, and whether it took a frame off the input. */
  datatype Guard = Guard(ok: bool, reading: bool, consumed: bool)

  /** How a read that got past the guard ended, from what nextTree returned and whether a handler threw. */
  function OutcomeOf(decoded: bool, threw: bool): Outcome
  {
    if threw then Threw else if decoded then Decoded else Undecodable
  }

  /** read() as written: the guard is released only after a stanza was handled. */
  function ReadAsWritten(reading: bool, outcome: Outcome): Guard
  {
    if reading then Guard(true, true, false) else Guard(outcome == Decoded, outcome != Decoded, true)
  }

  /** read() releasing its guard however it ends. */
  function ReadReleasing(reading: bool, outcome: Outcome): Guard
  {
    if reading then Guard(true, true, false) else Guard(outcome == Decoded, false, true)
  }

  /**
   * Successive calls of read(), each meeting the given outcome when it gets
   * past the guard: how many frames they took, whether every call returned
   * true, and the guard afterwards.
   */
  function Calls(releasing: bool, reading: bool, outcomes: seq<Outcome>): (r: (nat, bool, bool))
    ensures r.0 <= |outcomes|
    decreases |outcomes|
  {
    if |outcomes| == 0 then (0, true, reading)
    else
      var g := if releasing then ReadReleasing(reading, outcomes[0]) else ReadAsWritten(reading, outcomes[0]);
      var rest := Calls(releasing, g.reading, outcomes[1..]);
      ((if g.consumed then 1 else 0) + rest.0, g.ok && rest.1, rest.2)
  }

  /** With the guard set, read() as written takes nothing and reports success, call after call. */
  lemma {:induction false} StuckGuardHolds(outcomes: seq<Outcome>)
    ensures Calls(false, true, outcomes) == (0, true, true)
    decreases |outcomes|
  {
    if |outcomes| > 0 {
      StuckGuardHolds(outcomes[1..]);
    }
  }

  /**
   * read() as written, after a frame that does not decode: that call
   * returns false and every later call returns true without taking a
   * frame, so readNode's loop turns for as long as octets are pending.
   */
  lemma AsWrittenStalls(outcomes: seq<Outcome>)
    requires |outcomes| > 0 && outcomes[0] != Decoded
    ensures Calls(false, false, outcomes) == (1, false, true)
  {
    StuckGuardHolds(outcomes[1..]);
  }

  /** read() releasing its guard: every call takes one frame, and the guard is free afterwards. */
  lemma {:induction false} ReleasingDrains(outcomes: seq<Outcome>)
    ensures Calls(true, false, outcomes).0 == |outcomes| && !Calls(true, false, outcomes).2
    ensures Calls(true, false, outcomes).1 <==> forall i :: 0 <= i < |outcomes| ==> outcomes[i] == Decoded
    decreases |outcomes|
  {
    if |outcomes| > 0 {
      ReleasingDrains(outcomes[1..]);
      assert forall i :: 1 <= i < |outcomes| ==> outcomes[i] == outcomes[1..][i - 1];
    }
  }
}
