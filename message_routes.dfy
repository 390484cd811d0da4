/**
 * The message REST routes of chat-backend/routes/messageRoutes.js: the
 * reply to a chat-file upload, the history of one conversation, and the
 * sender-only edit and soft delete of a message. The authenticated user
 * (`req.user._id`, set by the authentication middleware) is a parameter.
 */
module MessageRoutes {
  import opened Models
  import opened Store

  // ----------------------------------------------------------------------
  // POST /api/messages/upload-file

  /** What the upload middleware leaves in `req.file`. */
  datatype UploadedFile = UploadedFile(filename: string, originalname: string, mimetype: string)

  /** The JSON body of a successful upload. */
  datatype FileInfo = FileInfo(message: string, fileUrl: string, fileName: string, fileType: string)

  /** The public path under which stored chat files are served. */
  const ChatFilesPath: string := "/uploads/chat_files/"

  /** The upload reply: 400 without a file; otherwise the URL of the stored
      file, from which the stored name can be read back, and the client's
      original name and MIME type unchanged. */
  function UploadFile(file: Option<UploadedFile>): (r: Reply<FileInfo>)
    ensures file.None? <==> r == Error(400, "No file uploaded.")
    ensures file.Some? ==>
              && r.Success? && r.status == 200
              && r.body.message == "File uploaded successfully"
              && ChatFilesPath <= r.body.fileUrl
              && r.body.fileUrl[|ChatFilesPath|..] == file.value.filename
              && r.body.fileName == file.value.originalname
              && r.body.fileType == file.value.mimetype
  {
    match file
    case None => Error(400, "No file uploaded.")
    case Some(f) =>
      Success(200, FileInfo("File uploaded successfully", ChatFilesPath + f.filename,
                            f.originalname, f.mimetype))
  }

  /** Two different stored files never share a URL. */
  lemma UploadUrlsDistinct(f: UploadedFile, g: UploadedFile)
    requires f.filename != g.filename
    ensures UploadFile(Some(f)).body.fileUrl != UploadFile(Some(g)).body.fileUrl
  {
    var u, v := UploadFile(Some(f)).body.fileUrl, UploadFile(Some(g)).body.fileUrl;
    assert u[|ChatFilesPath|..] != v[|ChatFilesPath|..];
  }

  // ----------------------------------------------------------------------
  // GET /api/messages/:conversationId

  /** `Message.find({ conversationId })`: the conversation's messages in
      collection order. */
  function InConversation(ms: seq<Message>, cid: ConversationId): (r: seq<Message>)
    ensures forall m :: multiset(r)[m] == if m.conversationId == cid then multiset(ms)[m] else 0
  {
    if ms == [] then []
    else
      assert ms == [ms[0]] + ms[1..];
      (if ms[0].conversationId == cid then [ms[0]] else []) + InConversation(ms[1..], cid)
  }

  /** A message's creation time, the key of the history's order. */
  function CreatedAt(m: Message): Timestamp {
    m.createdAt
  }

  /** Ascending by `key`. */
  predicate SortedBy<T>(xs: seq<T>, key: T -> int) {
    forall i, j :: 0 <= i < j < |xs| ==> key(xs[i]) <= key(xs[j])
  }

  /** Chronological order, oldest first. */
  predicate Chronological(ms: seq<Message>) {
    SortedBy(ms, CreatedAt)
  }

  /** Inserts `x` before the first element whose key is not smaller, so
      after every element with a smaller key and before every equal one. */
  function InsertBy<T>(x: T, xs: seq<T>, key: T -> int): (r: seq<T>)
    requires SortedBy(xs, key)
    ensures SortedBy(r, key)
    ensures multiset(r) == multiset(xs) + multiset{x}
  {
    if xs == [] || key(x) <= key(xs[0]) then [x] + xs
    else
      var rest := InsertBy(x, xs[1..], key);
      assert xs == [xs[0]] + xs[1..];
      assert multiset(rest) == multiset(xs[1..] + [x]);
      LowerBoundKept(rest, xs[1..] + [x], key, key(xs[0]));
      [xs[0]] + rest
  }

  /** A lower bound on the keys of a sequence holds for any permutation of it. */
  lemma LowerBoundKept<T>(ys: seq<T>, zs: seq<T>, key: T -> int, lo: int)
    requires multiset(ys) == multiset(zs)
    requires forall k :: 0 <= k < |zs| ==> lo <= key(zs[k])
    ensures forall k :: 0 <= k < |ys| ==> lo <= key(ys[k])
  {
    forall k | 0 <= k < |ys| ensures lo <= key(ys[k]) {
      assert ys[k] in multiset(zs);
      var j :| 0 <= j < |zs| && zs[j] == ys[k];
    }
  }

  /** A stable insertion sort by `key`. */
  function SortBy<T>(xs: seq<T>, key: T -> int): (r: seq<T>)
    ensures SortedBy(r, key)
    ensures multiset(r) == multiset(xs)
  {
    if xs == [] then []
    else
      assert xs == [xs[0]] + xs[1..];
      InsertBy(xs[0], SortBy(xs[1..], key), key)
  }

  /** The elements whose key is `v`, in their order. */
  function WithKey<T>(xs: seq<T>, key: T -> int, v: int): seq<T> {
    if xs == [] then [] else (if key(xs[0]) == v then [xs[0]] else []) + WithKey(xs[1..], key, v)
  }

  lemma {:induction false} InsertByKeepsTies<T>(x: T, xs: seq<T>, key: T -> int, v: int)
    requires SortedBy(xs, key)
    ensures WithKey(InsertBy(x, xs, key), key, v) == (if key(x) == v then [x] else []) + WithKey(xs, key, v)
    decreases |xs|
  {
    var r := InsertBy(x, xs, key);
    if xs == [] || key(x) <= key(xs[0]) {
      assert r[1..] == xs;
    } else {
      assert r[1..] == InsertBy(x, xs[1..], key);
      InsertByKeepsTies(x, xs[1..], key, v);
    }
  }

  /** The sort is stable: the elements sharing any one key keep their
      order from the input. */
  lemma {:induction false} SortByStable<T>(xs: seq<T>, key: T -> int, v: int)
    ensures WithKey(SortBy(xs, key), key, v) == WithKey(xs, key, v)
    decreases |xs|
  {
    if xs != [] {
      InsertByKeepsTies(xs[0], SortBy(xs[1..], key), key, v);
      SortByStable(xs[1..], key, v);
    }
  }

  /** `.sort({ createdAt: 1 })`. */
  function SortByTime(ms: seq<Message>): (r: seq<Message>)
    ensures Chronological(r)
    ensures multiset(r) == multiset(ms)
  {
    SortBy(ms, CreatedAt)
  }

  /** The history route: 404 for an unknown conversation, 403 for a
      requester who is not a participant, otherwise exactly the
      conversation's messages, oldest first. */
  function GetMessages(conversations: map<ConversationId, Conversation>, messages: seq<Message>,
                       cid: ConversationId, requester: UserId): (r: Reply<seq<Message>>)
    ensures cid !in conversations ==> r == Error(404, "Conversation not found.")
    ensures cid in conversations && requester !in conversations[cid].participants ==>
              r == Error(403, "You are not authorized to view these messages.")
    ensures cid in conversations && requester in conversations[cid].participants ==>
              && r.Success? && r.status == 200
              && Chronological(r.body)
              && forall m :: multiset(r.body)[m] == if m.conversationId == cid then multiset(messages)[m] else 0
  {
    if cid !in conversations then Error(404, "Conversation not found.")
    else if requester !in conversations[cid].participants then
      Error(403, "You are not authorized to view these messages.")
    else Success(200, SortByTime(InConversation(messages, cid)))
  }

  /** A participant sees a stored message in the history exactly when it
      belongs to the conversation. */
  lemma HistoryMembership(conversations: map<ConversationId, Conversation>, messages: seq<Message>,
                          cid: ConversationId, requester: UserId, m: Message)
    requires cid in conversations && requester in conversations[cid].participants
    ensures m in GetMessages(conversations, messages, cid, requester).body <==>
              m in messages && m.conversationId == cid
  {
    var body := GetMessages(conversations, messages, cid, requester).body;
    assert m in body <==> multiset(body)[m] > 0;
    assert m in messages <==> multiset(messages)[m] > 0;
  }

  // ----------------------------------------------------------------------
  // PUT /api/messages/:messageId/edit and DELETE /api/messages/:messageId

  /** The text a deleted message shows. */
  const DeletedNotice: string := "This message was deleted"

  /** The edited document: new content (trimmed on assignment by the
      schema) and the edited flag. */
  function Edited(m: Message, content: string): (e: Message)
    ensures e.content == Trim(content) && e.isEdited
  {
    m.(content := Trim(content), isEdited := true)
  }

  /** The soft-deleted document: the notice as content, no attachment, and
      the deletion time. */
  function SoftDeleted(m: Message, now: Timestamp): (d: Message)
    ensures d.content == DeletedNotice && d.deletedAt == Some(now)
    ensures d.fileUrl == "" && d.fileType == "" && d.fileName == ""
  {
    m.(content := DeletedNotice, fileUrl := "", fileType := "", fileName := "", deletedAt := Some(now))
  }

  /** An edit changes no field but content and the edited flag: putting
      those two back gives the original message; it keeps the message well
      formed, and only the last of several edits counts. */
  lemma EditedChangesOnlyContent(m: Message, content: string, later: string)
    ensures Edited(m, content).(content := m.content, isEdited := m.isEdited) == m
    ensures WellFormed(m) ==> WellFormed(Edited(m, content))
    ensures Edited(Edited(m, content), later) == Edited(m, later)
  {
  }

  /** Saving the same edit twice gives the same document. */
  lemma {:induction false} EditedIdempotent(m: Message, content: string)
    ensures Edited(Edited(m, content), Edited(m, content).content) == Edited(m, content)
  {
    TrimIdempotent(content);
  }

  /** A soft delete changes no field but content, the three file fields
      and the deletion time, keeps the message well formed, and deleting
      again only moves the deletion time. */
  lemma SoftDeletedChangesOnlyShown(m: Message, now: Timestamp, later: Timestamp)
    ensures SoftDeleted(m, now).(content := m.content, fileUrl := m.fileUrl, fileType := m.fileType,
                                 fileName := m.fileName, deletedAt := m.deletedAt) == m
    ensures WellFormed(m) ==> WellFormed(SoftDeleted(m, now))
    ensures SoftDeleted(SoftDeleted(m, now), later) == SoftDeleted(m, later)
  {
  }

  /** An edit to blank or missing content stores empty content, which the
      schema's `required` content refuses: as written, the save would fail
      and the route answer with a server error. */
  lemma BlankEditBreaksSchema(m: Message, content: string)
    requires forall i :: 0 <= i < |content| ==> IsWhiteSpace(content[i])
    ensures Edited(m, content).content == ""
    ensures !SchemaAccepts(Edited(m, content))
  {
    TrimSpec(content);
  }

  /** Neither route checks `deletedAt`: the sender can still edit a deleted
      message, which then shows the new text while staying marked deleted. */
  lemma EditAfterDelete(m: Message, now: Timestamp, content: string)
    ensures Edited(SoftDeleted(m, now), content).content == Trim(content)
    ensures Edited(SoftDeleted(m, now), content).deletedAt == Some(now)
  {
  }

  /** The edit route. Only the targeted message changes. */
  method EditMessage(db: Db, messageId: MessageId, content: string, requester: UserId)
    returns (r: Reply<Message>)
    requires db.Valid()
    modifies db`messages
    ensures db.Valid()
    ensures messageId >= |old(db.messages)| ==>
              r == Error(404, "Message not found.") && db.messages == old(db.messages)
    ensures messageId < |old(db.messages)| && old(db.messages)[messageId].sender != requester ==>
              r == Error(403, "You are not authorized to edit this message.") && db.messages == old(db.messages)
    ensures messageId < |old(db.messages)| && old(db.messages)[messageId].sender == requester ==>
              && db.messages == old(db.messages)[messageId := Edited(old(db.messages)[messageId], content)]
              && r == Success(200, db.messages[messageId])
  {
    if messageId >= |db.messages| {
      return Error(404, "Message not found.");
    }
    var m := db.messages[messageId];
    if m.sender != requester {
      return Error(403, "You are not authorized to edit this message.");
    }
    m := m.(content := Trim(content));
    m := m.(isEdited := true);
    assert m == Edited(db.messages[messageId], content);
    ReplaceKeepsInPlace(db.messages, messageId, m);
    db.messages := db.messages[messageId := m];
    r := Success(200, m);
  }

  /** The delete route: the message stays in the collection, soft deleted.
      Only the targeted message changes. */
  method DeleteMessage(db: Db, messageId: MessageId, requester: UserId, now: Timestamp)
    returns (r: Reply<Message>)
    requires db.Valid()
    modifies db`messages
    ensures db.Valid()
    ensures |db.messages| == |old(db.messages)|
    ensures messageId >= |old(db.messages)| ==>
              r == Error(404, "Message not found.") && db.messages == old(db.messages)
    ensures messageId < |old(db.messages)| && old(db.messages)[messageId].sender != requester ==>
              r == Error(403, "You are not authorized to delete this message.") && db.messages == old(db.messages)
    ensures messageId < |old(db.messages)| && old(db.messages)[messageId].sender == requester ==>
              && db.messages == old(db.messages)[messageId := SoftDeleted(old(db.messages)[messageId], now)]
              && r == Success(200, db.messages[messageId])
  {
    if messageId >= |db.messages| {
      return Error(404, "Message not found.");
    }
    var m := db.messages[messageId];
    if m.sender != requester {
      return Error(403, "You are not authorized to delete this message.");
    }
    m := m.(content := DeletedNotice);
    m := m.(fileUrl := "");
    m := m.(fileType := "");
    m := m.(fileName := "");
    m := m.(deletedAt := Some(now));
    ReplaceKeepsInPlace(db.messages, messageId, m);
    db.messages := db.messages[messageId := m];
    r := Success(200, m);
  }

  /** A deleted message is still part of its conversation's history. */
  lemma DeletedStaysInHistory(conversations: map<ConversationId, Conversation>, messages: seq<Message>,
                              i: nat, requester: UserId, now: Timestamp)
    requires i < |messages|
    requires messages[i].conversationId in conversations
    requires requester in conversations[messages[i].conversationId].participants
    ensures var after := messages[i := SoftDeleted(messages[i], now)];
            SoftDeleted(messages[i], now) in
              GetMessages(conversations, after, messages[i].conversationId, requester).body
  {
    var after := messages[i := SoftDeleted(messages[i], now)];
    assert after[i] == SoftDeleted(messages[i], now);
    HistoryMembership(conversations, after, messages[i].conversationId, requester, SoftDeleted(messages[i], now));
  }
}
