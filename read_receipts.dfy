/**
 * The bulk update of `markMessagesAsRead`
 * (chat-backend/socket/socketHandlers.js:190-200): every message of the
 * conversation that the reader did not send and that is not yet read gets
 * status "read" and the reader added to `readBy` ($addToSet). The number
 * of such messages is the update's `modifiedCount`.
 */
module ReadReceipts {
  import opened Models

  /** The update filter: in the conversation, not from the reader, not read. */
  predicate Unread(m: Message, cid: ConversationId, reader: UserId) {
    m.conversationId == cid && m.sender != reader && m.status != Read
  }

  /** `$addToSet`: the element is appended unless already present. */
  function AddToSet(xs: seq<UserId>, x: UserId): (r: seq<UserId>)
    ensures x in r
    ensures forall y :: y in r <==> y in xs || y == x
    ensures xs <= r
    ensures NoDuplicates(xs) ==> NoDuplicates(r)
  {
    if x in xs then xs else xs + [x]
  }

  /** The update applied to one document. */
  function MarkOne(m: Message, cid: ConversationId, reader: UserId): Message {
    if Unread(m, cid, reader) then m.(status := Read, readBy := AddToSet(m.readBy, reader))
    else m
  }

  /** The update applied to the whole collection. */
  function MarkRead(ms: seq<Message>, cid: ConversationId, reader: UserId): (r: seq<Message>)
    ensures |r| == |ms|
    ensures forall i :: 0 <= i < |ms| ==> r[i] == MarkOne(ms[i], cid, reader)
  {
    if ms == [] then [] else [MarkOne(ms[0], cid, reader)] + MarkRead(ms[1..], cid, reader)
  }

  /** The update's `modifiedCount`, counted from the back so that a loop
      over the collection can extend it one document at a time. */
  function CountUnread(ms: seq<Message>, cid: ConversationId, reader: UserId): nat {
    if ms == [] then 0
    else CountUnread(ms[..|ms| - 1], cid, reader) + (if Unread(ms[|ms| - 1], cid, reader) then 1 else 0)
  }

  lemma {:induction false} CountUnreadZero(ms: seq<Message>, cid: ConversationId, reader: UserId)
    ensures CountUnread(ms, cid, reader) == 0 <==> forall i :: 0 <= i < |ms| ==> !Unread(ms[i], cid, reader)
  {
    if ms != [] {
      CountUnreadZero(ms[..|ms| - 1], cid, reader);
      assert forall i :: 0 <= i < |ms| - 1 ==> ms[..|ms| - 1][i] == ms[i];
    }
  }

  /** What the update does to one message: a message of the conversation
      that someone else sent ends up read, with the reader added to
      `readBy` if it was not read yet (a message already read, by anybody,
      is skipped and its `readBy` is not touched);
      nothing else about it changes, its status never goes back, and it
      stays well formed. Any other message is untouched. */
  lemma MarkOneEffect(m: Message, cid: ConversationId, reader: UserId)
    ensures var r := MarkOne(m, cid, reader);
            && (m.conversationId == cid && m.sender != reader ==> r.status == Read)
            && (Unread(m, cid, reader) ==> reader in r.readBy)
            && (m.conversationId != cid || m.sender == reader ==> r == m)
            && r == m.(status := r.status, readBy := r.readBy)
            && m.readBy <= r.readBy
            && Rank(m.status) <= Rank(r.status)
            && (WellFormed(m) ==> WellFormed(r))
  {
  }

  /** The update keeps every message at its id and well formed. */
  lemma MarkReadKeepsIds(ms: seq<Message>, cid: ConversationId, reader: UserId)
    requires forall i :: 0 <= i < |ms| ==> ms[i].id == i && WellFormed(ms[i])
    ensures var r := MarkRead(ms, cid, reader);
            forall i :: 0 <= i < |r| ==> r[i].id == i && WellFormed(r[i])
  {
    forall i | 0 <= i < |ms| {
      MarkOneEffect(ms[i], cid, reader);
    }
  }

  /** Running the update a second time changes nothing. */
  lemma MarkReadIdempotent(ms: seq<Message>, cid: ConversationId, reader: UserId)
    ensures MarkRead(MarkRead(ms, cid, reader), cid, reader) == MarkRead(ms, cid, reader)
  {
  }

  /** After the update nothing is left for a second call to modify, so a
      second call emits no `messagesRead`. */
  lemma NothingUnreadAfter(ms: seq<Message>, cid: ConversationId, reader: UserId)
    ensures CountUnread(MarkRead(ms, cid, reader), cid, reader) == 0
  {
    CountUnreadZero(MarkRead(ms, cid, reader), cid, reader);
  }

  /** When nothing is unread the update leaves the collection as it was. */
  lemma NoUnreadNoChange(ms: seq<Message>, cid: ConversationId, reader: UserId)
    requires CountUnread(ms, cid, reader) == 0
    ensures MarkRead(ms, cid, reader) == ms
  {
    CountUnreadZero(ms, cid, reader);
  }
}
