/**
 * The Socket.IO event handlers of chat-backend/socket/socketHandlers.js.
 *
 * One `SocketServer` object holds the module-level registry (`activeUsers`,
 * `userSockets`), the rooms each socket has joined, and the log of every
 * event the server emitted, with its target. Each handler is one atomic
 * step: the awaits inside a handler are not interleaved with other
 * handlers. Storage is the shared `Db` object.
 */
module SocketHandlers {
  import opened Models
  import opened Store
  import opened Registry
  import opened Reactions
  import opened ReadReceipts

  /** Where an emit goes: `io.emit` (everyone), `io.to(room)`,
      `socket.to(room)` (the room without the emitting socket), or one
      socket (`socket.emit`, or `io.to(socketId)`). */
  datatype Target =
    | Everyone
    | Room(room: ConversationId)
    | RoomExcept(room: ConversationId, except: SocketId)
    | Direct(socket: SocketId)

  datatype Event =
    | ActiveUsers(users: set<UserId>)
    | ReceiveMessage(message: Message)
    | MessageDelivered(messageId: MessageId, conversationId: ConversationId)
    | MessagesRead(conversationId: ConversationId)
    | MessageUpdated(message: Message)
    | UserTyping(conversationId: ConversationId, userId: string, userName: string, isTyping: bool)
    | ReceiveGroupKey(conversationId: ConversationId, senderId: string, encryptedKey: string)
    | MessageError(text: string)

  datatype Emit = Emit(target: Target, event: Event)

  /** The `sendMessage` payload; "" stands for an absent or empty field. */
  datatype SendPayload = SendPayload(
    conversationId: ConversationId,
    senderId: UserId,
    content: string,
    isEncrypted: bool,
    fileUrl: string,
    fileType: string,
    fileName: string,
    replyTo: string,
    replySnippet: string,
    replySenderName: string)

  /** The `reactToMessage` payload. `conversationId` is None when it is
      undefined or null (then `conversationId.toString()` throws);
      `messageId` is None when it is missing. */
  datatype ReactPayload = ReactPayload(
    conversationId: Option<ConversationId>,
    messageId: Option<MessageId>,
    emoji: string)

  /** The `typing` / `stopTyping` payload, forwarded as it came. */
  datatype TypingPayload = TypingPayload(conversationId: ConversationId, userId: string, userName: string)

  /** The `shareGroupKey` payload; "" stands for an absent field. */
  datatype KeySharePayload = KeySharePayload(
    conversationId: ConversationId,
    senderId: string,
    recipientId: UserId,
    encryptedKey: string)

  /** The guard of socketHandlers.js:68. */
  predicate MissingData(p: SendPayload) {
    p.conversationId == "" || p.senderId == "" || (p.content == "" && p.fileUrl == "")
  }

  /** The document `sendMessage` saves (socketHandlers.js:76-88). */
  function Compose(p: SendPayload, id: MessageId, now: Timestamp): (m: Message)
    ensures m.id == id && m.conversationId == p.conversationId && m.sender == p.senderId
    ensures m.status == Sent && m.readBy == [p.senderId] && m.reactions == []
    ensures WellFormed(m)
  {
    NewMessage(id, p.conversationId, p.senderId, p.content, p.isEncrypted, p.fileUrl,
               p.fileType, p.fileName, if p.replyTo == "" then None else Some(p.replyTo),
               p.replySnippet, p.replySenderName, now)
  }

  /** chat-backend/models/Message.js requires `content`, yet the guard of
      socketHandlers.js:68 lets a file-only message through: the document
      saved for it is one that schema, as written, refuses. */
  lemma FileOnlyMessageBreaksSchema(p: SendPayload, id: MessageId, now: Timestamp)
    requires !MissingData(p) && p.content == ""
    ensures p.fileUrl != ""
    ensures !SchemaAccepts(Compose(p, id, now))
  {
    assert TrimStart("") == "";
  }

  /** A message whose text is not blank is one the schema accepts: both
      ids are present and the stored content is non-empty and trimmed. */
  lemma {:induction false} TextMessageMeetsSchema(p: SendPayload, id: MessageId, now: Timestamp)
    requires !MissingData(p) && Trim(p.content) != ""
    ensures SchemaAccepts(Compose(p, id, now))
  {
    TrimIdempotent(p.content);
  }

  /** `participants.find(p => p !== me)`: the first participant who is not `me`. */
  function OtherParticipant(participants: seq<UserId>, me: UserId): (r: Option<UserId>)
    ensures r.Some? ==> r.value in participants && r.value != me
    ensures r.None? <==> forall k :: 0 <= k < |participants| ==> participants[k] == me
    ensures r.Some? ==> exists i :: 0 <= i < |participants| && participants[i] == r.value
                                    && forall k :: 0 <= k < i ==> participants[k] == me
  {
    var i := FirstIndex(participants, (p: UserId) => p != me);
    if i == -1 then None else Some(participants[i])
  }

  /** The participant whose presence decides delivery: only a non-group
      conversation with exactly two participants has one. */
  function DeliveryRecipient(conv: Conversation, sender: UserId): Option<UserId> {
    if !conv.isGroupChat && |conv.participants| == 2 then OtherParticipant(conv.participants, sender)
    else None
  }

  predicate Delivers(conv: Conversation, sender: UserId, online: map<UserId, SocketId>) {
    var r := DeliveryRecipient(conv, sender);
    r.Some? && r.value in online
  }

  /** A message is marked delivered only in a direct conversation, and only
      when a participant other than the sender is online. */
  lemma DeliveryOnlyInDirectChats(conv: Conversation, sender: UserId, online: map<UserId, SocketId>)
    ensures Delivers(conv, sender, online) ==>
              && !conv.isGroupChat && |conv.participants| == 2
              && exists p :: p in conv.participants && p != sender && p in online
    ensures conv.isGroupChat || |conv.participants| != 2 ==> !Delivers(conv, sender, online)
  {
  }

  /** In a direct conversation between two different users, a message is
      delivered exactly when the other user is online. */
  lemma DirectChatDelivery(a: UserId, b: UserId, lastMessage: Option<MessageId>, online: map<UserId, SocketId>)
    requires a != b
    ensures Delivers(Conversation([a, b], false, lastMessage), a, online) <==> b in online
    ensures Delivers(Conversation([a, b], false, lastMessage), b, online) <==> a in online
  {
    assert OtherParticipant([a, b], a) == Some(b);
    assert OtherParticipant([a, b], b) == Some(a);
  }

  /** The notice `markMessagesAsRead` sends after `modified` documents were
      updated: one `messagesRead` to the first other participant, if online.
      Only that participant is considered: when they are offline nobody is
      told, however many other participants are online. */
  function ReadNotice(modified: nat, conv: Conversation, reader: UserId,
                      online: map<UserId, SocketId>, cid: ConversationId): (r: seq<Emit>)
    ensures |r| <= 1
    ensures modified == 0 ==> r == []
    ensures r != [] ==> exists u :: u in online && u in conv.participants && u != reader
                                    && r == [Emit(Direct(online[u]), MessagesRead(cid))]
    ensures var first := OtherParticipant(conv.participants, reader);
            r != [] <==> modified > 0 && first.Some? && first.value in online
    ensures var first := OtherParticipant(conv.participants, reader);
            r != [] ==> r == [Emit(Direct(online[first.value]), MessagesRead(cid))]
  {
    var other := OtherParticipant(conv.participants, reader);
    if modified > 0 && other.Some? && other.value in online then
      [Emit(Direct(online[other.value]), MessagesRead(cid))]
    else []
  }

  /** In a group where the first participant after the reader is offline,
      no read notice goes out even though a later participant is online. */
  lemma ReadNoticeFirstOnly(modified: nat, reader: UserId, first: UserId, later: UserId,
                            lastMessage: Option<MessageId>, online: map<UserId, SocketId>, cid: ConversationId)
    requires modified > 0 && first != reader && first !in online && later in online
    ensures ReadNotice(modified, Conversation([reader, first, later], true, lastMessage), reader, online, cid) == []
  {
    var ps := [reader, first, later];
    var r := OtherParticipant(ps, reader);
    assert ps[1] != reader;
    var i :| 0 <= i < |ps| && ps[i] == r.value && forall k :: 0 <= k < i ==> ps[k] == reader;
    assert i == 1;
  }

  /** The `lastSeen` update on disconnect. */
  function TouchLastSeen(users: seq<User>, id: UserId, now: Timestamp): (r: seq<User>)
    ensures |r| == |users|
    ensures forall k :: 0 <= k < |users| ==> r[k] == users[k].(lastSeen := r[k].lastSeen)
    ensures forall k :: 0 <= k < |users| && users[k].id != id ==> r[k] == users[k]
    ensures forall k :: 0 <= k < |users| && users[k].id == id && UniqueUsers(users) ==> r[k].lastSeen == Some(now)
  {
    UpdateUser(users, id, (u: User) => u.(lastSeen := Some(now)))
  }

  /** `Message.updateMany` with the filter and update of
      socketHandlers.js:190-200, one document at a time: returns the
      updated collection and the update's `modifiedCount`. */
  method UpdateMany(messages: seq<Message>, cid: ConversationId, readerId: UserId)
    returns (ms: seq<Message>, modified: nat)
    ensures ms == MarkRead(messages, cid, readerId)
    ensures modified == CountUnread(messages, cid, readerId)
  {
    ms := messages;
    modified := 0;
    var i := 0;
    while i < |ms|
      invariant 0 <= i <= |ms| == |messages|
      invariant forall k :: 0 <= k < i ==> ms[k] == MarkOne(messages[k], cid, readerId)
      invariant forall k :: i <= k < |ms| ==> ms[k] == messages[k]
      invariant modified == CountUnread(messages[..i], cid, readerId)
    {
      assert messages[..i + 1][..i] == messages[..i];
      if Unread(ms[i], cid, readerId) {
        ms := ms[i := ms[i].(status := Read, readBy := AddToSet(ms[i].readBy, readerId))];
        modified := modified + 1;
      }
      i := i + 1;
    }
    assert messages[..i] == messages;
  }

  class SocketServer {
    var activeUsers: map<UserId, SocketId>
    var userSockets: map<SocketId, UserId>
    /** Every socket id the transport has handed to the connection handler;
        Socket.IO never hands out the same id twice. */
    var issued: set<SocketId>
    var rooms: map<ConversationId, set<SocketId>>
    var emits: seq<Emit>
    const db: Db

    function Conns(): Connections
      reads this
    {
      Connections(activeUsers, userSockets)
    }

    ghost predicate Valid()
      reads this, db
    {
      Consistent(Conns()) && userSockets.Keys <= issued && db.Valid()
    }

    /** The position in the user collection of the user registered for the
        socket (`UserSocket.findById(userSockets[socket.id])`), or -1. */
    function ReactorIndex(sid: SocketId): (i: int)
      reads this, db
      ensures -1 <= i < |db.users|
    {
      if sid in userSockets then UserIndex(db.users, userSockets[sid]) else -1
    }

    constructor (db: Db)
      requires db.Valid()
      ensures Valid() && this.db == db
      ensures activeUsers == map[] && userSockets == map[] && issued == {}
      ensures rooms == map[] && emits == []
    {
      this.db := db;
      activeUsers, userSockets, issued := map[], map[], {};
      rooms, emits := map[], [];
    }

    /** The connection handler (socketHandlers.js:12-31). */
    method Connect(sid: SocketId, h: Handshake)
      requires Valid() && sid !in issued
      modifies this
      ensures Valid()
      ensures Conns() == Registry.Connect(old(Conns()), sid, h)
      ensures issued == old(issued) + {sid} && rooms == old(rooms)
      ensures emits == old(emits) + if Identifies(h) then [Emit(Everyone, ActiveUsers(activeUsers.Keys))] else []
    {
      ConnectKeepsConsistent(Conns(), sid, h);
      issued := issued + {sid};
      var currentUserId := h.userId;
      if currentUserId.Some? && currentUserId.value != "" && currentUserId.value != "null"
         && currentUserId.value != "undefined" {
        activeUsers := activeUsers[currentUserId.value := sid];
        userSockets := userSockets[sid := currentUserId.value];
        emits := emits + [Emit(Everyone, ActiveUsers(activeUsers.Keys))];
      }
    }

    /** `joinConversation` (socketHandlers.js:33-40). */
    method JoinConversation(sid: SocketId, cid: ConversationId)
      requires Valid()
      modifies this`rooms
      ensures Valid()
      ensures cid in rooms && rooms[cid] == (if cid in old(rooms) then old(rooms)[cid] else {}) + {sid}
      ensures forall c :: c != cid ==> (c in rooms <==> c in old(rooms)) && (c in rooms ==> rooms[c] == old(rooms)[c])
    {
      var members := if cid in rooms then rooms[cid] else {};
      rooms := rooms[cid := members + {sid}];
    }

    /** `leaveConversation` (socketHandlers.js:42-49). */
    method LeaveConversation(sid: SocketId, cid: ConversationId)
      requires Valid()
      modifies this`rooms
      ensures Valid()
      ensures cid in old(rooms) ==> rooms == old(rooms)[cid := old(rooms)[cid] - {sid}]
      ensures cid !in old(rooms) ==> rooms == old(rooms)
    {
      if cid in rooms {
        rooms := rooms[cid := rooms[cid] - {sid}];
      }
    }

    /** `sendMessage` (socketHandlers.js:51-142). */
    method SendMessage(sid: SocketId, p: SendPayload, now: Timestamp)
      requires Valid()
      modifies this`emits, db`messages, db`conversations
      ensures Valid()
      ensures db.users == old(db.users) && db.admins == old(db.admins)
      // Invalid payload: an error to the caller only, nothing saved.
      ensures MissingData(p) ==>
                && db.messages == old(db.messages) && db.conversations == old(db.conversations)
                && emits == old(emits) + [Emit(Direct(sid), MessageError("Missing data for sending message."))]
      // Unknown conversation: the message is saved anyway (orphaned) and the caller gets an error.
      ensures !MissingData(p) && p.conversationId !in old(db.conversations) ==>
                && db.messages == old(db.messages) + [Compose(p, |old(db.messages)|, now)]
                && db.conversations == old(db.conversations)
                && emits == old(emits) + [Emit(Direct(sid), MessageError("Conversation not found."))]
      // Known conversation: saved, made the conversation's last message,
      // broadcast to the room, and marked delivered if the direct
      // recipient is online; only then the sender's socket is told.
      ensures !MissingData(p) && p.conversationId in old(db.conversations) ==>
                var id := |old(db.messages)|;
                var conv := old(db.conversations)[p.conversationId];
                var m := Compose(p, id, now);
                var delivered := Delivers(conv, p.senderId, activeUsers);
                && db.messages == old(db.messages) + [if delivered then m.(status := Delivered) else m]
                && db.conversations == old(db.conversations)[p.conversationId := conv.(lastMessage := Some(id))]
                && emits == old(emits) + [Emit(Room(p.conversationId), ReceiveMessage(m))]
                            + (if delivered && p.senderId in activeUsers
                               then [Emit(Direct(activeUsers[p.senderId]), MessageDelivered(id, p.conversationId))]
                               else [])
    {
      if MissingData(p) {
        emits := emits + [Emit(Direct(sid), MessageError("Missing data for sending message."))];
        return;
      }
      var id := |db.messages|;
      var newMessage := Compose(p, id, now);
      AppendKeepsInPlace(db.messages, newMessage);
      db.messages := db.messages + [newMessage];
      if p.conversationId !in db.conversations {
        emits := emits + [Emit(Direct(sid), MessageError("Conversation not found."))];
        return;
      }
      var conversation := db.conversations[p.conversationId];
      db.conversations := db.conversations[p.conversationId := conversation.(lastMessage := Some(id))];
      emits := emits + [Emit(Room(p.conversationId), ReceiveMessage(newMessage))];
      var recipient := DeliveryRecipient(conversation, p.senderId);
      if recipient.Some? && recipient.value in activeUsers {
        ReplaceKeepsInPlace(db.messages, id, newMessage.(status := Delivered));
        db.messages := db.messages[id := newMessage.(status := Delivered)];
        if p.senderId in activeUsers {
          emits := emits + [Emit(Direct(activeUsers[p.senderId]), MessageDelivered(id, p.conversationId))];
        }
      }
    }

    /** `shareGroupKey` (socketHandlers.js:145-175): relayed to the
        recipient's registered socket only, and dropped silently when the
        recipient is offline or a field is missing. */
    method ShareGroupKey(p: KeySharePayload)
      requires Valid()
      modifies this`emits
      ensures Valid()
      ensures (|| p.recipientId == "" || p.encryptedKey == "" || p.conversationId == "" || p.senderId == ""
               || p.recipientId !in activeUsers) ==> emits == old(emits)
      ensures p.recipientId != "" && p.encryptedKey != "" && p.conversationId != "" && p.senderId != ""
                && p.recipientId in activeUsers ==>
                emits == old(emits) + [Emit(Direct(activeUsers[p.recipientId]),
                                            ReceiveGroupKey(p.conversationId, p.senderId, p.encryptedKey))]
    {
      if p.recipientId == "" || p.encryptedKey == "" || p.conversationId == "" || p.senderId == "" {
        return;
      }
      if p.recipientId in activeUsers {
        emits := emits + [Emit(Direct(activeUsers[p.recipientId]),
                               ReceiveGroupKey(p.conversationId, p.senderId, p.encryptedKey))];
      }
    }

    /** `markMessagesAsRead` (socketHandlers.js:177-222). The reader is the
        user registered for the socket, never a field of the payload. */
    method MarkMessagesAsRead(sid: SocketId, cid: ConversationId)
      requires Valid()
      modifies this`emits, db`messages
      ensures Valid()
      ensures db.users == old(db.users) && db.admins == old(db.admins) && db.conversations == old(db.conversations)
      ensures cid == "" || sid !in userSockets || cid !in db.conversations ==>
                db.messages == old(db.messages) && emits == old(emits)
      ensures cid != "" && sid in userSockets && cid in db.conversations ==>
                var reader := userSockets[sid];
                && db.messages == MarkRead(old(db.messages), cid, reader)
                && emits == old(emits) + ReadNotice(CountUnread(old(db.messages), cid, reader),
                                                    db.conversations[cid], reader, activeUsers, cid)
    {
      if cid == "" || sid !in userSockets {
        return;
      }
      var readerId := userSockets[sid];
      if cid !in db.conversations {
        return;
      }
      var conversation := db.conversations[cid];
      var ms, modified := UpdateMany(db.messages, cid, readerId);
      MarkReadKeepsIds(db.messages, cid, readerId);
      db.messages := ms;
      emits := emits + ReadNotice(modified, conversation, readerId, activeUsers, cid);
    }

    /** `reactToMessage` (socketHandlers.js:224-271). */
    method ReactToMessage(sid: SocketId, p: ReactPayload)
      requires Valid()
      modifies this`emits, db`messages
      ensures Valid()
      ensures db.users == old(db.users) && db.admins == old(db.admins) && db.conversations == old(db.conversations)
      // No registered reactor, no message id or no emoji: an error to the caller.
      ensures ReactorIndex(sid) == -1 || p.messageId.None? || p.emoji == "" ==>
                && db.messages == old(db.messages)
                && emits == old(emits) + [Emit(Direct(sid), MessageError("Missing data for reaction."))]
      // Unknown message: nothing happens.
      ensures ReactorIndex(sid) != -1 && p.messageId.Some? && p.emoji != "" && p.messageId.value >= |db.messages| ==>
                db.messages == old(db.messages) && emits == old(emits)
      // Otherwise the reactor's reaction is toggled and the message is
      // broadcast to the room; without a conversation id the change is
      // saved but the caller gets an error instead of the broadcast.
      ensures ReactorIndex(sid) != -1 && p.messageId.Some? && p.emoji != "" && p.messageId.value < |old(db.messages)| ==>
                var reactor := db.users[ReactorIndex(sid)];
                var m := old(db.messages)[p.messageId.value];
                var updated := m.(reactions := Toggle(m.reactions, reactor.id, reactor.fullName, p.emoji));
                && db.messages == old(db.messages)[p.messageId.value := updated]
                && emits == old(emits) + [if p.conversationId.Some?
                                          then Emit(Room(p.conversationId.value), MessageUpdated(updated))
                                          else Emit(Direct(sid), MessageError("Error processing your reaction."))]
    {
      var reactorIndex := ReactorIndex(sid);
      if reactorIndex == -1 || p.messageId.None? || p.emoji == "" {
        emits := emits + [Emit(Direct(sid), MessageError("Missing data for reaction."))];
        return;
      }
      var reactor := db.users[reactorIndex];
      var messageId := p.messageId.value;
      if messageId >= |db.messages| {
        return;
      }
      var message := db.messages[messageId];
      var reactions := message.reactions;
      var existingReactionIndex := ReactionIndex(reactions, reactor.id);
      if existingReactionIndex > -1 {
        if reactions[existingReactionIndex].emoji == p.emoji {
          reactions := reactions[..existingReactionIndex] + reactions[existingReactionIndex + 1..];
        } else {
          reactions := reactions[existingReactionIndex := reactions[existingReactionIndex].(emoji := p.emoji)];
        }
      } else {
        reactions := reactions + [Reaction(p.emoji, reactor.id, reactor.fullName)];
      }
      assert reactions == Toggle(message.reactions, reactor.id, reactor.fullName, p.emoji);
      ToggleEffect(message.reactions, reactor.id, reactor.fullName, p.emoji);
      var updated := message.(reactions := reactions);
      ReplaceKeepsInPlace(db.messages, messageId, updated);
      db.messages := db.messages[messageId := updated];
      if p.conversationId.Some? {
        emits := emits + [Emit(Room(p.conversationId.value), MessageUpdated(updated))];
      } else {
        emits := emits + [Emit(Direct(sid), MessageError("Error processing your reaction."))];
      }
    }

    /** `typing` (isTyping true) and `stopTyping` (isTyping false),
        socketHandlers.js:273-291: forwarded to the rest of the room only
        from a registered socket and with a conversation id. */
    method Typing(sid: SocketId, data: TypingPayload, isTyping: bool)
      requires Valid()
      modifies this`emits
      ensures Valid()
      ensures sid !in userSockets || data.conversationId == "" ==> emits == old(emits)
      ensures sid in userSockets && data.conversationId != "" ==>
                emits == old(emits) + [Emit(RoomExcept(data.conversationId, sid),
                                            UserTyping(data.conversationId, data.userId, data.userName, isTyping))]
    {
      if sid in userSockets && data.conversationId != "" {
        emits := emits + [Emit(RoomExcept(data.conversationId, sid),
                               UserTyping(data.conversationId, data.userId, data.userName, isTyping))];
      }
    }

    /** The disconnect handler (socketHandlers.js:293-319). The transport
        itself takes the socket out of every room. */
    method Disconnect(sid: SocketId, now: Timestamp)
      requires Valid()
      modifies this, db`users
      ensures Valid()
      ensures Conns() == Registry.Disconnect(old(Conns()), sid)
      ensures issued == old(issued)
      ensures rooms == map c | c in old(rooms) :: old(rooms)[c] - {sid}
      ensures db.messages == old(db.messages) && db.conversations == old(db.conversations)
      ensures sid !in old(userSockets) ==> db.users == old(db.users) && emits == old(emits)
      ensures sid in old(userSockets) ==>
                && db.users == TouchLastSeen(old(db.users), old(userSockets)[sid], now)
                && emits == old(emits) + [Emit(Everyone, ActiveUsers(activeUsers.Keys))]
    {
      DisconnectKeepsConsistent(Conns(), sid);
      rooms := map c | c in rooms :: rooms[c] - {sid};
      if sid in userSockets {
        var disconnectedUserId := userSockets[sid];
        activeUsers := activeUsers - {disconnectedUserId};
        userSockets := userSockets - {sid};
        db.users := TouchLastSeen(db.users, disconnectedUserId, now);
        emits := emits + [Emit(Everyone, ActiveUsers(activeUsers.Keys))];
      }
    }
  }
}
