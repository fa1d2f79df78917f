// What read() does with a stanza it handles by its tag: the answers it
// writes (a ping's result, the receipt and notification acks, the call
// reject), the requests the ib, contacts, picture and encrypt stanzas
// make, and the signals they raise. A parser that only raises signals is
// one Handed event. The WAConnectionPrivate methods in module Connection
// are proved to leave exactly these outboxes.
module Stanzas {
  import opened Bytes
  import opened ProtocolTree
  import opened ConnectionLogic
  import opened OrderedKeys

  // ---------------------------------------------------------------------
  // The nodes written in answer.
  // ---------------------------------------------------------------------

  /**
   * What a clean request says: an iq set under this id, to the domain, in
   * the dirty namespace, with one "clean" child per category, in order.
   */
  predicate CleansCategories(r: Node, id: string, domain: string, categories: seq<string>)
  {
    && r.tag == "iq" && AttributeValue(r, "id") == id && AttributeValue(r, "type") == "set"
    && AttributeValue(r, "to") == domain && AttributeValue(r, "xmlns") == "urn:xmpp:whatsapp:dirty"
    && |r.children| == |categories|
    && forall k :: 0 <= k < |categories| ==>
         r.children[k].tag == "clean" && AttributeValue(r.children[k], "type") == categories[k]
  }

  /** sendCleanDirty. */
  function CleanDirtyNode(id: string, domain: string, categories: seq<string>): (r: Node)
    ensures CleansCategories(r, id, domain, categories)
  {
    Node("iq", map["id" := id, "type" := "set", "to" := domain, "xmlns" := "urn:xmpp:whatsapp:dirty"], [],
         seq(|categories|, k requires 0 <= k < |categories| => Node("clean", map["type" := categories[k]], [], [], 0)), 0)
  }

  /** sendReceiptAck: the receipt acknowledged to its sender under its id; a receipt without a type is a delivery. */
  function ReceiptAck(node: Node): (r: Node)
    ensures r.tag == "ack" && r.children == []
    ensures "to" in r.attributes && r.attributes["to"] == AttributeValue(node, "from")
    ensures "id" in r.attributes && r.attributes["id"] == AttributeValue(node, "id")
    ensures "type" in r.attributes && r.attributes["type"] == (if AttributeValue(node, "type") == "" then "delivery" else AttributeValue(node, "type"))
  {
    var kind := AttributeValue(node, "type");
    Node("ack", map["class" := "receipt", "type" := if kind == "" then "delivery" else kind,
                    "id" := AttributeValue(node, "id"), "to" := AttributeValue(node, "from")], [], [], 0)
  }

  /**
   * sendNotificationReceived: the notification acknowledged to its sender
   * under its id and type; the participant and the addressee are echoed
   * only when set, and a contacts notification asks for the sync to go out.
   */
  function NotificationAck(node: Node): (r: Node)
    ensures r.tag == "ack"
    ensures "to" in r.attributes && r.attributes["to"] == AttributeValue(node, "from")
    ensures "id" in r.attributes && r.attributes["id"] == AttributeValue(node, "id")
    ensures "type" in r.attributes && r.attributes["type"] == AttributeValue(node, "type")
    ensures "participant" in r.attributes <==> AttributeValue(node, "participant") != ""
    ensures "from" in r.attributes <==> AttributeValue(node, "to") != ""
    ensures |r.children| == (if AttributeValue(node, "type") == "contacts" then 1 else 0)
  {
    var participant := AttributeValue(node, "participant");
    var to := AttributeValue(node, "to");
    var attrs := map["to" := AttributeValue(node, "from"), "class" := "notification",
                     "id" := AttributeValue(node, "id"), "type" := AttributeValue(node, "type")];
    var withParticipant := if participant == "" then attrs else attrs["participant" := participant];
    var withFrom := if to == "" then withParticipant else withParticipant["from" := to];
    Node("ack", withFrom, [], if AttributeValue(node, "type") == "contacts" then [Node("sync", map["contacts" := "out"], [], [], 0)] else [], 0)
  }

  /** sendCallReject: a "call" to the caller carrying a "reject" of the offered call. */
  function CallReject(jid: string, id: string, callId: string): (r: Node)
    ensures r.tag == "call" && r.attributes == map["to" := jid, "id" := id]
    ensures |r.children| == 1 && r.children[0].tag == "reject"
    ensures r.children[0].attributes == map["call-id" := callId]
  {
    Node("call", map["to" := jid, "id" := id], [], [Node("reject", map["call-id" := callId], [], [], 0)], 0)
  }

  // ---------------------------------------------------------------------
  // ib: the loop over the children.
  // ---------------------------------------------------------------------

  /** One child of an ib stanza: a "dirty" one has its category cleaned under the next id, an "offline" one has its count signalled. */
  function IbStep(o: Outbox, child: Node, domain: string): Outbox
  {
    if child.tag == "dirty" then
      Send(o.(iqid := Next32(o.iqid)), CleanDirtyNode(IdAt(o.iqid, 1), domain, [AttributeValue(child, "type")]))
    else if child.tag == "offline" then Emit(o, OfflineMessages(ToInt(AttributeValue(child, "count"))))
    else o
  }

  /** A counter moved once and then k times has moved k + 1 times. */
  lemma AdvanceAfterNext(n: uint32, k: nat)
    ensures Advance(Next32(n), k) == Advance(n, k + 1)
  {
    AdvanceAdd(n, 1, k);
  }

  /** The ib loop over its children: the id counter moves once per dirty child, and no reply is awaited. */
  function IbFold(o: Outbox, items: seq<Node>, domain: string): (r: Outbox)
    ensures r.open == o.open && r.bindStore == o.bindStore && o.events <= r.events
    ensures r.iqid == Advance(o.iqid, |Tagged(items, "dirty")|)
    decreases |items|
  {
    if |items| == 0 then o
    else
      var n := |Tagged(items[1..], "dirty")|;
      assert |Tagged(items, "dirty")| == if items[0].tag == "dirty" then n + 1 else n;
      AdvanceAfterNext(o.iqid, n);
      IbFold(IbStep(o, items[0], domain), items[1..], domain)
  }

  /** A sequence without this tag has nothing tagged with it. */
  lemma {:induction false} NoneTagged(xs: seq<Node>, tag: string)
    requires forall k :: 0 <= k < |xs| ==> xs[k].tag != tag
    ensures Tagged(xs, tag) == []
    decreases |xs|
  {
    if |xs| > 0 {
      NoneTagged(xs[1..], tag);
    }
  }

  /** With the tags ascending, every dirty child comes before every offline one. */
  lemma {:induction false} IbFoldSplits(o: Outbox, items: seq<Node>, domain: string)
    requires TagsAscend(items)
    ensures IbFold(o, items, domain) == IbFold(IbFold(o, Tagged(items, "dirty"), domain), Tagged(items, "offline"), domain)
    decreases |items|
  {
    if |items| > 0 {
      var rest := items[1..];
      assert TagsAscend(rest);
      IbFoldSplits(IbStep(o, items[0], domain), rest, domain);
      if items[0].tag == "offline" {
        assert Less("dirty", "offline");
        forall k | 0 <= k < |rest| ensures rest[k].tag != "dirty" {
          assert !Less(items[k + 1].tag, items[0].tag);
        }
        NoneTagged(rest, "dirty");
      }
    }
  }

  /** Dirty children in a row: while the socket is open each writes a clean request with the next id. */
  lemma {:induction false} DirtyRun(o: Outbox, dirty: seq<Node>, domain: string)
    requires forall k :: 0 <= k < |dirty| ==> dirty[k].tag == "dirty"
    ensures var r := IbFold(o, dirty, domain);
            && (o.open ==> |r.events| == |o.events| + |dirty|
                           && forall k :: 0 <= k < |dirty| ==>
                                r.events[|o.events| + k] == Wrote(CleanDirtyNode(IdAt(o.iqid, k + 1), domain, [AttributeValue(dirty[k], "type")])))
            && (!o.open ==> r.events == o.events)
    decreases |dirty|
  {
    hide CleanDirtyNode, CleansCategories, Number, Tagged;
    if |dirty| > 0 {
      var o1 := IbStep(o, dirty[0], domain);
      var rest := dirty[1..];
      DirtyRun(o1, rest, domain);
      var r := IbFold(o, dirty, domain);
      assert r == IbFold(o1, rest, domain);
      if o.open {
        assert o1.events == o.events + [Wrote(CleanDirtyNode(IdAt(o.iqid, 1), domain, [AttributeValue(dirty[0], "type")]))];
        forall k | 0 <= k < |dirty|
          ensures r.events[|o.events| + k] == Wrote(CleanDirtyNode(IdAt(o.iqid, k + 1), domain, [AttributeValue(dirty[k], "type")]))
        {
          if k > 0 {
            AdvanceAfterNext(o.iqid, k);
            assert IdAt(o1.iqid, k) == IdAt(o.iqid, k + 1);
            assert rest[k - 1] == dirty[k];
          }
        }
      }
    }
  }

  /** Offline children in a row: each signals its count, and the counter stays. */
  lemma {:induction false} OfflineRun(o: Outbox, offline: seq<Node>, domain: string)
    requires forall k :: 0 <= k < |offline| ==> offline[k].tag == "offline"
    ensures var r := IbFold(o, offline, domain);
            && r.iqid == o.iqid
            && |r.events| == |o.events| + |offline|
            && forall k :: 0 <= k < |offline| ==>
                 r.events[|o.events| + k] == OfflineMessages(ToInt(AttributeValue(offline[k], "count")))
    decreases |offline|
  {
    hide CleanDirtyNode, CleansCategories, ToInt, Number, Tagged, AttributeValue, IdAt, Next32, Trimmed, Decimal;
    NoneTagged(offline, "dirty");
    if |offline| > 0 {
      var o1 := IbStep(o, offline[0], domain);
      var rest := offline[1..];
      OfflineRun(o1, rest, domain);
      var r := IbFold(o, offline, domain);
      assert r == IbFold(o1, rest, domain);
      forall k | 0 <= k < |offline|
        ensures r.events[|o.events| + k] == OfflineMessages(ToInt(AttributeValue(offline[k], "count")))
      {
        if k > 0 {
          assert rest[k - 1] == offline[k];
        }
      }
    }
  }

  /**
   * What an ib stanza does: every dirty child, newest first, is cleaned
   * under the next id (written only while the socket is open), and then
   * every offline child's count is signalled, newest first. Nothing else
   * is written, and no reply is awaited.
   */
  lemma IbEffects(o: Outbox, children: seq<Node>, domain: string)
    ensures var r := IbFold(o, Iteration(children), domain);
            var dirty := NewestFirst(children, "dirty");
            var offline := NewestFirst(children, "offline");
            var written := if o.open then |dirty| else 0;
            && r.open == o.open && r.bindStore == o.bindStore
            && r.iqid == Advance(o.iqid, |dirty|)
            && |r.events| == |o.events| + written + |offline|
            && (o.open ==> forall k :: 0 <= k < |dirty| ==>
                  r.events[|o.events| + k] == Wrote(CleanDirtyNode(IdAt(o.iqid, k + 1), domain, [AttributeValue(dirty[k], "type")])))
            && forall k :: 0 <= k < |offline| ==>
                 r.events[|o.events| + written + k] == OfflineMessages(ToInt(AttributeValue(offline[k], "count")))
  {
    hide Iteration, NewestFirst, Tagged, IbFold, CleanDirtyNode, ToInt, IdAt, TagsAscend;
    var items := Iteration(children);
    var dirty := NewestFirst(children, "dirty");
    var offline := NewestFirst(children, "offline");
    IbInTagOrder(o, children, domain);
    IterationNewestFirst(children, "dirty");
    var r := IbFold(o, items, domain);
    assert r.iqid == Advance(o.iqid, |dirty|);
    DirtyThenOffline(o, dirty, offline, domain);
  }

  /** The ib loop visits every dirty child, newest first, and then every offline one, newest first. */
  lemma IbInTagOrder(o: Outbox, children: seq<Node>, domain: string)
    ensures IbFold(o, Iteration(children), domain)
         == IbFold(IbFold(o, NewestFirst(children, "dirty"), domain), NewestFirst(children, "offline"), domain)
  {
    hide Iteration, NewestFirst, Tagged, IbFold, IbStep;
    IterationAscends(children);
    IbFoldSplits(o, Iteration(children), domain);
    IterationNewestFirst(children, "dirty");
    IterationNewestFirst(children, "offline");
  }

  /** A run of dirty children then a run of offline ones: the writes of the first, then the signals of the second. */
  lemma DirtyThenOffline(o: Outbox, dirty: seq<Node>, offline: seq<Node>, domain: string)
    requires forall k :: 0 <= k < |dirty| ==> dirty[k].tag == "dirty"
    requires forall k :: 0 <= k < |offline| ==> offline[k].tag == "offline"
    ensures var r := IbFold(IbFold(o, dirty, domain), offline, domain);
            var written := if o.open then |dirty| else 0;
            && |r.events| == |o.events| + written + |offline|
            && (o.open ==> forall k :: 0 <= k < |dirty| ==>
                  r.events[|o.events| + k] == Wrote(CleanDirtyNode(IdAt(o.iqid, k + 1), domain, [AttributeValue(dirty[k], "type")])))
            && forall k :: 0 <= k < |offline| ==>
                 r.events[|o.events| + written + k] == OfflineMessages(ToInt(AttributeValue(offline[k], "count")))
  {
    hide IbFold, Tagged, CleanDirtyNode, ToInt, IdAt, AttributeValue;
    var o1 := IbFold(o, dirty, domain);
    var r := IbFold(o1, offline, domain);
    DirtyRun(o, dirty, domain);
    OfflineRun(o1, offline, domain);
    var written := if o.open then |dirty| else 0;
    assert |o1.events| == |o.events| + written && o1.events <= r.events;
  }

  // ---------------------------------------------------------------------
  // Notifications.
  // ---------------------------------------------------------------------

  /** sendGetLastSeen: a request for a contact, nothing for a group (a jid with a '-'). */
  function LastSeenRequest(o: Outbox, jid: string): (r: Outbox)
    ensures Contains(jid, "-") ==> r == o
    ensures !Contains(jid, "-") ==> r.iqid == Next32(o.iqid) && o.events <= r.events
    ensures r.open == o.open
  {
    if Contains(jid, "-") then o else Request(o, LastSeenQuery(jid), Child("query"), "contactLastSeen")
  }

  /** One child of a contacts notification: an "update" asks for the contact's last seen, picture ids and status; any other is signalled. */
  function ContactsStep(o: Outbox, child: Node, domain: string): Outbox
  {
    var jid := AttributeValue(child, "jid");
    if child.tag == "update" then
      Request(Request(LastSeenRequest(o, jid), PictureIdsQuery(domain), PictureIdsList([jid]), "contactsPicrureIds"),
              StatusesQuery(domain), StatusList([jid]), "contactsStatuses")
    else Emit(o, ContactsNotification(child.tag, child.attributes))
  }

  /** parseContactsNotification's loop over the children. */
  function ContactsFold(o: Outbox, items: seq<Node>, domain: string): (r: Outbox)
    ensures r.open == o.open && o.events <= r.events
    ensures !o.open ==> r.bindStore == o.bindStore
    ensures |Tagged(items, "update")| == 0 ==> r.iqid == o.iqid && r.bindStore == o.bindStore
    decreases |items|
  {
    if |items| == 0 then o
    else
      assert |Tagged(items, "update")| == 0 ==> items[0].tag != "update" && |Tagged(items[1..], "update")| == 0;
      ContactsFold(ContactsStep(o, items[0], domain), items[1..], domain)
  }

  /**
   * An updated contact, on an open socket: its last seen (unless it is a
   * group), then its picture ids, then its status are asked for, each
   * under its own new id bound to the handler of its reply.
   */
  lemma ContactUpdateAsks(o: Outbox, child: Node, domain: string)
    requires o.open && child.tag == "update"
    ensures var r := ContactsStep(o, child, domain);
            var lastSeen := if Contains(AttributeValue(child, "jid"), "-") then 0 else 1;
            && r.iqid == Advance(o.iqid, lastSeen + 2)
            && (lastSeen == 1 ==> IdAt(o.iqid, 1) in r.bindStore && r.bindStore[IdAt(o.iqid, 1)] == "contactLastSeen")
            && IdAt(o.iqid, lastSeen + 1) in r.bindStore && r.bindStore[IdAt(o.iqid, lastSeen + 1)] == "contactsPicrureIds"
            && IdAt(o.iqid, lastSeen + 2) in r.bindStore && r.bindStore[IdAt(o.iqid, lastSeen + 2)] == "contactsStatuses"
  {
    var jid := AttributeValue(child, "jid");
    var o1 := LastSeenRequest(o, jid);
    var lastSeen := if Contains(jid, "-") then 0 else 1;
    assert o1.iqid == Advance(o.iqid, lastSeen);
    var o2 := Request(o1, PictureIdsQuery(domain), PictureIdsList([jid]), "contactsPicrureIds");
    RequestBinds(o1, PictureIdsQuery(domain), PictureIdsList([jid]), "contactsPicrureIds");
    RequestBinds(o2, StatusesQuery(domain), StatusList([jid]), "contactsStatuses");
    AdvanceAdd(o.iqid, lastSeen, 1);
    AdvanceAdd(o.iqid, lastSeen + 1, 1);
    assert IdAt(o1.iqid, 1) == IdAt(o.iqid, lastSeen + 1);
    assert IdAt(o2.iqid, 1) == IdAt(o.iqid, lastSeen + 2);
    IdsNeverRepeat(o.iqid, lastSeen + 1, lastSeen + 2);
    if lastSeen == 1 {
      RequestBinds(o, LastSeenQuery(jid), Child("query"), "contactLastSeen");
      IdsNeverRepeat(o.iqid, 1, 2);
      IdsNeverRepeat(o.iqid, 1, 3);
    }
  }

  /** One child of a picture notification: a "set" signals the new picture id, a "delete" asks for the picture again. */
  function PictureStep(o: Outbox, child: Node): Outbox
  {
    var jid := AttributeValue(child, "jid");
    if child.tag == "set" then Emit(o, ContactPictureId(jid, AttributeValue(child, "id"), AttributeValue(child, "author")))
    else if child.tag == "delete" then Request(o, PictureQuery(jid), PictureChild, "contactPicture")
    else o
  }

  /** parsePictureNotification's loop: one picture request, hence one id, per deleted picture. */
  function PictureFold(o: Outbox, items: seq<Node>): (r: Outbox)
    ensures r.open == o.open && o.events <= r.events
    ensures r.iqid == Advance(o.iqid, |Tagged(items, "delete")|)
    ensures !o.open ==> r.bindStore == o.bindStore
    decreases |items|
  {
    if |items| == 0 then o
    else
      AdvanceAfterNext(o.iqid, |Tagged(items[1..], "delete")|);
      PictureFold(PictureStep(o, items[0]), items[1..])
  }

  /** parseEncryptNotification: when the server holds ten pre-keys or fewer, a new batch is uploaded. */
  function EncryptOut(o: Outbox, node: Node): (r: Outbox)
    ensures var count := GetChild(node.children, "count");
            var low := HasChild(node.children, "count") && ToInt(AttributeValue(count, "value")) <= 10;
            && (low ==> r == EncryptRequest(o))
            && (!low ==> r == o)
  {
    if HasChild(node.children, "count") && ToInt(AttributeValue(GetChild(node.children, "count"), "value")) <= 10 then EncryptRequest(o)
    else o
  }

  /** A count the server did not write as a number reads as 0, so it asks for new pre-keys too. */
  lemma UnreadableCountUploads(o: Outbox, node: Node)
    requires HasChild(node.children, "count")
    requires var t := Trimmed(AttributeValue(GetChild(node.children, "count"), "value"));
             !Decimal(t) && (|t| == 0 || (t[0] != '-' && t[0] != '+'))
    ensures EncryptOut(o, node) == EncryptRequest(o)
  {
    hide EncryptRequest, Trimmed, Decimal;
  }

  /** A notification: acknowledged first, then handed to the parser its type names. */
  function NotificationOut(o: Outbox, node: Node, domain: string): (r: Outbox)
    ensures r.open == o.open && o.events <= r.events
    ensures o.open ==> |r.events| > |o.events| && r.events[|o.events|] == Wrote(NotificationAck(node))
  {
    var o1 := Send(o, NotificationAck(node));
    var kind := AttributeValue(node, "type");
    if kind == "contacts" then ContactsFold(o1, Iteration(node.children), domain)
    else if kind == "picture" then PictureFold(o1, Iteration(node.children))
    else if kind == "w:gp2" || kind == "status" then Emit(o1, Handed(Notification, node))
    else if kind == "encrypt" then EncryptOut(o1, node)
    else o1
  }

  // ---------------------------------------------------------------------
  // Calls.
  // ---------------------------------------------------------------------

  /** One child of a call: an "offer" is rejected and announced; the call receipt and ack are empty in this client. */
  function CallStep(o: Outbox, node: Node, item: Node): Outbox
  {
    var jid := AttributeValue(node, "from");
    if item.tag == "offer" then
      Emit(Send(o, CallReject(jid, AttributeValue(node, "id"), AttributeValue(item, "call-id"))), IncomingCall(jid, AttributeValue(node, "t")))
    else o
  }

  /** parseCall's loop: every offer is announced, and rejected while the socket is open; nothing else happens. */
  function CallFold(o: Outbox, node: Node, items: seq<Node>): (r: Outbox)
    ensures r.open == o.open && r.iqid == o.iqid && r.bindStore == o.bindStore
    ensures |r.events| == |o.events| + (if o.open then 2 else 1) * |Tagged(items, "offer")|
    ensures o.events <= r.events
    decreases |items|
  {
    if |items| == 0 then o else CallFold(CallStep(o, node, items[0]), node, items[1..])
  }

  // ---------------------------------------------------------------------
  // A message and its receipt.
  // ---------------------------------------------------------------------

  /** A text message with an "enc" child and no "body": parseMessage hands it to the end-to-end layer. */
  predicate EncryptedText(node: Node)
  {
    AttributeValue(node, "type") == "text" && !HasChild(node.children, "body") && HasChild(node.children, "enc")
  }

  /** sendMessageReceived without a type: the message acknowledged to its sender under its id, with its participant when it has one. */
  function MessageReceipt(node: Node): (r: Node)
    ensures r.tag == "receipt" && r.children == [] && "type" !in r.attributes
    ensures "to" in r.attributes && r.attributes["to"] == AttributeValue(node, "from")
    ensures "id" in r.attributes && r.attributes["id"] == AttributeValue(node, "id")
    ensures "participant" in r.attributes <==> AttributeValue(node, "participant") != ""
    ensures "participant" in r.attributes ==> r.attributes["participant"] == AttributeValue(node, "participant")
  {
    var participant := AttributeValue(node, "participant");
    var attrs := map["to" := AttributeValue(node, "from"), "id" := AttributeValue(node, "id")];
    Node("receipt", if participant == "" then attrs else attrs["participant" := participant], [], [], 0)
  }

  /**
   * sendMessageRetry: a "retry" receipt to the sender under the message id,
   * stamped with the clock in milliseconds, carrying registration id 0 in
   * four octets and a first retry of that id.
   */
  function MessageRetry(node: Node, nowMs: nat): (r: Node)
    ensures r.tag == "receipt" && "type" in r.attributes && r.attributes["type"] == "retry"
    ensures "to" in r.attributes && r.attributes["to"] == AttributeValue(node, "from")
    ensures "id" in r.attributes && r.attributes["id"] == AttributeValue(node, "id")
    ensures |r.children| == 2 && r.children[0].tag == "registration" && r.children[0].data == [0, 0, 0, 0]
    ensures r.children[1].tag == "retry" && AttributeValue(r.children[1], "id") == AttributeValue(node, "id")
    ensures AttributeValue(r.children[1], "count") == "1" && AttributeValue(r.children[1], "t") == AttributeValue(r, "t")
  {
    var t := Number(nowMs, 10);
    var id := AttributeValue(node, "id");
    Node("receipt", map["to" := AttributeValue(node, "from"), "id" := id, "t" := t, "type" := "retry"], [],
         [Node("registration", map[], [0, 0, 0, 0], [], 0),
          Node("retry", map["count" := "1", "id" := id, "t" := t, "v" := "1"], [], [], 0)], 0)
  }

  /**
   * What read() writes after handing a message to parseMessage: the
   * receipt, unless the message is encrypted text the end-to-end layer
   * could not decrypt, which is answered with a retry instead.
   */
  function MessageOut(o: Outbox, node: Node, decrypted: bool, nowMs: nat): (r: Outbox)
    ensures r.open == o.open && r.iqid == o.iqid && r.bindStore == o.bindStore
    ensures |r.events| == |o.events| + (if o.open then 2 else 1) && o.events <= r.events
    ensures r.events[|o.events|] == Handed(Message, node)
    ensures o.open ==> r.events[|o.events| + 1] == Wrote(if EncryptedText(node) && !decrypted then MessageRetry(node, nowMs) else MessageReceipt(node))
  {
    var handed := Emit(o, Handed(Message, node));
    if EncryptedText(node) && !decrypted then Send(handed, MessageRetry(node, nowMs)) else Send(handed, MessageReceipt(node))
  }

  /**
   * A message is acknowledged exactly when the socket is open and it is not
   * encrypted text left undecrypted; it is retried exactly in that case.
   * Only encrypted text depends on the end-to-end outcome at all.
   */
  lemma MessageAnswered(o: Outbox, node: Node, decrypted: bool, nowMs: nat)
    ensures var r := MessageOut(o, node, decrypted, nowMs);
            && (Wrote(MessageReceipt(node)) in r.events[|o.events|..] <==> o.open && (!EncryptedText(node) || decrypted))
            && (Wrote(MessageRetry(node, nowMs)) in r.events[|o.events|..] <==> o.open && EncryptedText(node) && !decrypted)
    ensures !EncryptedText(node) ==> MessageOut(o, node, decrypted, nowMs) == MessageOut(o, node, !decrypted, nowMs)
  {
    hide Send, Emit, EncryptedText;
    var r := MessageOut(o, node, decrypted, nowMs);
    assert MessageReceipt(node) != MessageRetry(node, nowMs) by {
      assert "type" !in MessageReceipt(node).attributes;
    }
    if o.open {
      assert r.events[|o.events|..] == [Handed(Message, node), r.events[|o.events| + 1]];
    } else {
      assert r.events[|o.events|..] == [Handed(Message, node)];
    }
  }

  // ---------------------------------------------------------------------
  // The stanzas read() handles by tag.
  // ---------------------------------------------------------------------

  /**
   * The outbox after read() handled a stanza by its tag. Only an ib or a
   * notification can move the id counter or bind a reply; a notification
   * is acknowledged before anything else, a receipt after it is parsed,
   * and a message is answered as MessageOut says. The end-to-end outcome
   * for an encrypted message and the clock are parameters.
   */
  function StanzaOut(o: Outbox, kind: Kind, node: Node, domain: string, decrypted: bool, nowMs: nat): (r: Outbox)
    ensures r.open == o.open && o.events <= r.events
    ensures kind == Message && o.open ==> |r.events| > 0 && r.events[|r.events| - 1] == Wrote(if EncryptedText(node) && !decrypted then MessageRetry(node, nowMs) else MessageReceipt(node))
    ensures kind != Ib && kind != Notification ==> r.iqid == o.iqid && r.bindStore == o.bindStore
    ensures kind == Notification && o.open ==> |r.events| > |o.events| && r.events[|o.events|] == Wrote(NotificationAck(node))
    ensures kind == Receipt && o.open ==> |r.events| > 0 && r.events[|r.events| - 1] == Wrote(ReceiptAck(node))
  {
    match kind
    case Iq =>
      if AttributeValue(node, "xmlns") == "urn:xmpp:ping" then Send(o, ResultNode(AttributeValue(node, "id"), domain)) else o
    case Message => MessageOut(o, node, decrypted, nowMs)
    case Notification => NotificationOut(o, node, domain)
    case Receipt => Send(Emit(o, Handed(Receipt, node)), ReceiptAck(node))
    case Ib => IbFold(o, Iteration(node.children), domain)
    case Presence => Emit(o, Handed(Presence, node))
    case Chatstate => Emit(o, Handed(Chatstate, node))
    case Call => CallFold(o, node, Iteration(node.children))
    case _ => o
  }
}
