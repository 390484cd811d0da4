/**
 * The records of the chat backend.
 *
 * The message document follows the fields that the socket handler writes
 * (chat-backend/socket/socketHandlers.js:76-88 and the reaction list it
 * edits), not only the fields that chat-backend/models/Message.js declares;
 * the schema's own rules (required fields, trimmed content, the status enum
 * and its default) are stated here as functions so that the difference can
 * be shown. Users, administrators and conversations carry only the fields
 * that the modelled handlers read or write.
 */
module Models {

  datatype Option<+T> = None | Some(value: T)

  /** An HTTP response: an error status with its message, or a success
      status with its JSON body. */
  datatype Reply<+T> = Error(status: nat, message: string) | Success(status: nat, body: T)

  type UserId = string
  type SocketId = string
  type ConversationId = string
  type Timestamp = nat

  /** A message's ObjectId is modelled by its position in the collection. */
  type MessageId = nat

  // ----------------------------------------------------------------------
  // Searching a collection in its natural order

  /** The first position whose element satisfies `p`, or -1: what
      Array.prototype.findIndex returns, and which document a `findOne`
      over a collection in insertion order yields. */
  function FirstIndex<T>(xs: seq<T>, p: T -> bool): (i: int)
    ensures -1 <= i < |xs|
    ensures i == -1 <==> forall k :: 0 <= k < |xs| ==> !p(xs[k])
    ensures 0 <= i ==> p(xs[i]) && forall k :: 0 <= k < i ==> !p(xs[k])
  {
    if xs == [] then -1
    else if p(xs[0]) then 0
    else
      var j := FirstIndex(xs[1..], p);
      if j == -1 then -1 else j + 1
  }

  predicate NoDuplicates<T(==)>(xs: seq<T>) {
    forall i, j :: 0 <= i < j < |xs| ==> xs[i] != xs[j]
  }

  // ----------------------------------------------------------------------
  // JavaScript string primitives

  /** The characters String.prototype.trim removes: ECMAScript WhiteSpace
      and LineTerminator. */
  predicate IsWhiteSpace(c: char) {
    || c in {' ', '\t', '\n', '\r', '\U{B}', '\U{C}', '\U{A0}', '\U{1680}'}
    || c in {'\U{2028}', '\U{2029}', '\U{202F}', '\U{205F}', '\U{3000}', '\U{FEFF}'}
    || '\U{2000}' <= c <= '\U{200A}'
  }

  /** The number of white-space characters at the start of `s`. */
  function LeadingBlanks(s: string): (n: nat)
    ensures n <= |s|
    ensures forall i :: 0 <= i < n ==> IsWhiteSpace(s[i])
    ensures n == |s| || !IsWhiteSpace(s[n])
  {
    if s != [] && IsWhiteSpace(s[0]) then 1 + LeadingBlanks(s[1..]) else 0
  }

  /** The number of white-space characters at the end of `s`. */
  function TrailingBlanks(s: string): (n: nat)
    ensures n <= |s|
    ensures forall i :: |s| - n <= i < |s| ==> IsWhiteSpace(s[i])
    ensures n == |s| || !IsWhiteSpace(s[|s| - n - 1])
  {
    if s != [] && IsWhiteSpace(s[|s| - 1]) then 1 + TrailingBlanks(s[..|s| - 1]) else 0
  }

  function TrimStart(s: string): string {
    s[LeadingBlanks(s)..]
  }

  function TrimEnd(s: string): string {
    s[..|s| - TrailingBlanks(s)]
  }

  /** String.prototype.trim, which the schema's `trim: true` applies to
      `content` whenever it is assigned. */
  function Trim(s: string): (r: string)
  {
    TrimEnd(TrimStart(s))
  }

  /** Trim keeps one contiguous slice of its input and drops only white
      space on either side of it. */
  lemma TrimSlice(s: string)
    ensures exists i, j :: 0 <= i <= j <= |s| && Trim(s) == s[i..j]
                           && (forall k :: 0 <= k < i ==> IsWhiteSpace(s[k]))
                           && (forall k :: j <= k < |s| ==> IsWhiteSpace(s[k]))
  {
    var t := TrimStart(s);
    var i := LeadingBlanks(s);
    var j := i + |t| - TrailingBlanks(t);
    assert Trim(s) == s[i..j];
    assert forall k :: j <= k < |s| ==> s[k] == t[k - i];
  }

  /** Trim leaves no white space at either end, drops nothing but white
      space, and yields the empty string exactly for all-blank input. */
  lemma TrimSpec(s: string)
    ensures |Trim(s)| <= |s|
    ensures Trim(s) == [] || (!IsWhiteSpace(Trim(s)[0]) && !IsWhiteSpace(Trim(s)[|Trim(s)| - 1]))
    ensures Trim(s) == [] <==> forall i :: 0 <= i < |s| ==> IsWhiteSpace(s[i])
    ensures s == [] || (!IsWhiteSpace(s[0]) && !IsWhiteSpace(s[|s| - 1])) ==> Trim(s) == s
    ensures exists i, j :: 0 <= i <= j <= |s| && Trim(s) == s[i..j]
                           && (forall k :: 0 <= k < i ==> IsWhiteSpace(s[k]))
                           && (forall k :: j <= k < |s| ==> IsWhiteSpace(s[k]))
  {
    TrimSlice(s);
    var t := TrimStart(s);
    var r := TrimEnd(t);
    if r != [] {
      assert r[0] == t[0];
    }
    if s != [] && !IsWhiteSpace(s[0]) && !IsWhiteSpace(s[|s| - 1]) {
      assert t == s;
    }
  }

  lemma {:induction false} TrimIdempotent(s: string)
    ensures Trim(Trim(s)) == Trim(s)
  {
    TrimSpec(s);
    TrimSpec(Trim(s));
  }

  /** The value of a JavaScript string's `length`: UTF-16 code units, so a
      character outside the Basic Multilingual Plane counts twice. */
  function Utf16Length(s: string): (n: nat)
    ensures |s| <= n <= 2 * |s|
    ensures (forall i :: 0 <= i < |s| ==> s[i] as int <= 0xFFFF) ==> n == |s|
  {
    if s == [] then 0
    else (if s[0] as int > 0xFFFF then 2 else 1) + Utf16Length(s[1..])
  }

  // ----------------------------------------------------------------------
  // The message document

  datatype Status = Sent | Delivered | Read

  /** `default: "sent"` (chat-backend/models/Message.js:30). */
  const DefaultStatus: Status := Sent

  function StatusName(s: Status): string {
    match s
    case Sent => "sent"
    case Delivered => "delivered"
    case Read => "read"
  }

  /** The schema's enum validator: which stored strings are statuses. */
  function ParseStatus(name: string): (r: Option<Status>)
    ensures r.Some? <==> name in {"sent", "delivered", "read"}
    ensures r.Some? ==> StatusName(r.value) == name
  {
    if name == "sent" then Some(Sent)
    else if name == "delivered" then Some(Delivered)
    else if name == "read" then Some(Read)
    else None
  }

  lemma StatusNameRoundTrip(s: Status)
    ensures ParseStatus(StatusName(s)) == Some(s)
    ensures StatusName(s) in {"sent", "delivered", "read"}
  {
  }

  /** The order sent < delivered < read in which a status may only advance. */
  function Rank(s: Status): nat {
    match s
    case Sent => 0
    case Delivered => 1
    case Read => 2
  }

  datatype Reaction = Reaction(emoji: string, user: UserId, userName: string)

  datatype Message = Message(
    id: MessageId,
    conversationId: ConversationId,
    sender: UserId,
    content: string,
    isEncrypted: bool,
    fileUrl: string,
    fileType: string,
    fileName: string,
    status: Status,
    readBy: seq<UserId>,
    reactions: seq<Reaction>,
    replyTo: Option<string>,
    replySnippet: string,
    replySenderName: string,
    isEdited: bool,
    deletedAt: Option<Timestamp>,
    createdAt: Timestamp)

  /** A new document as the schema builds it from the handler's fields:
      content trimmed, status at its default, no reactions, not edited,
      not deleted. */
  function NewMessage(id: MessageId, conversationId: ConversationId, sender: UserId,
                      content: string, isEncrypted: bool, fileUrl: string,
                      fileType: string, fileName: string, replyTo: Option<string>,
                      replySnippet: string, replySenderName: string,
                      now: Timestamp): (m: Message)
    ensures m.status == DefaultStatus && m.readBy == [sender]
    ensures m.content == Trim(content) && m.reactions == []
    ensures WellFormed(m)
  {
    Message(id, conversationId, sender, Trim(content), isEncrypted, fileUrl, fileType,
            fileName, DefaultStatus, [sender], [], replyTo, replySnippet,
            replySenderName, false, None, now)
  }

  /** At most one reaction per user. */
  predicate UniqueReactors(rs: seq<Reaction>) {
    forall i, j :: 0 <= i < j < |rs| ==> rs[i].user != rs[j].user
  }

  /** What every stored message keeps: its sender has read it, `readBy`
      holds each reader once, and each user has at most one reaction. */
  predicate WellFormed(m: Message) {
    && m.sender in m.readBy
    && NoDuplicates(m.readBy)
    && UniqueReactors(m.reactions)
  }

  /** The document rules chat-backend/models/Message.js declares:
      conversationId, sender and content are required (an empty string
      fails Mongoose's `required` check), and content is stored trimmed. */
  predicate SchemaAccepts(m: Message) {
    m.conversationId != "" && m.sender != "" && m.content != "" && m.content == Trim(m.content)
  }

  // ----------------------------------------------------------------------
  // Other records (chat-backend/models/User.js, Admin.js and
  // Conversation.js are not part of this model: only the fields the
  // modelled handlers use are kept)

  datatype Conversation = Conversation(
    participants: seq<UserId>,
    isGroupChat: bool,
    lastMessage: Option<MessageId>)

  datatype User = User(
    id: UserId,
    fullName: string,
    email: string,
    passwordHash: string,
    profilePictureUrl: string,
    createdAt: Timestamp,
    e2eePublicKey: Option<string>,
    lastSeen: Option<Timestamp>)

  datatype Admin = Admin(
    id: string,
    fullName: string,
    email: string,
    passwordHash: string)

  predicate UniqueUsers(users: seq<User>) {
    forall i, j :: 0 <= i < j < |users| ==> users[i].id != users[j].id && users[i].email != users[j].email
  }

  predicate UniqueAdmins(admins: seq<Admin>) {
    forall i, j :: 0 <= i < j < |admins| ==> admins[i].id != admins[j].id && admins[i].email != admins[j].email
  }
}
