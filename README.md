# Chat backend core, modelled in Dafny

This project models the server side of a real-time chat application: a
Socket.IO server that registers online users, relays messages, delivery and
read receipts, reactions, typing notices and end-to-end-encryption group
keys, and the Express routes beside it for message history, editing and
soft deletion, file uploads, public-key exchange, user signup and login,
and administrator signup, password login and biometric login.

The state lives in one `Store.Db` object holding the message, conversation,
user and administrator collections. A message's id is its position in the
message collection. The socket server is the class
`SocketHandlers.SocketServer`. Its fields are the two registry dictionaries
(`activeUsers`, `userSockets`), the rooms, and a log of every event it
emits with the event's target. Each handler is a method that changes those
fields and the database. The routes are functions from the collections to a
`Reply` (an HTTP status with an error message or a JSON body). The five
routes that write to the database are methods that change the `Db` object:
message edit and delete, public-key upload, user signup and administrator
signup.

Some things the routes depend on become parameters:

- password hashing and comparison;
- the JWT signing secret and the invitation secret (`None` when the setting
  is unset; `jwt.sign` also refuses an empty signing secret);
- the clock;
- fresh document and socket ids.

A signed token is represented by its claims. A missing or falsy request
field is the empty string. `Option` is used only where the source tells
`undefined` apart from `""`. The JSON body is not sanitised
(chat-backend/server.js:23), so a field can also be an object; the
biometric route's email is modelled as either a string or a query operator
that matches every stored email (`Store.EmailQuery`).

Modules:

- `Models`: the records, JavaScript's `trim` and `length`, and the message
  schema's rules.
- `Store`: the database object.
- `Registry`: connect and disconnect over the two registry dictionaries.
- `Reactions`: the reaction toggle.
- `ReadReceipts`: the read-receipt update.
- `SocketHandlers`: the socket server.
- `MessageRoutes`, `KeyRoutes`, `AuthRoutes` and `AdminAuthRoutes`: the
  routes.
- `UploadMiddleware`: the image upload filter, the stored file name, the
  size limit and the upload error handler.

Where the code and its surroundings disagree, the model follows the code.
Two cases:

- The connection handler ignores the `isAdmin` handshake flag. It registers
  an administrator under the bare user id, with no `admin_` prefix
  (`Registry.AdminFlagIgnored`). The dashboard at
  admin-dashboard/src/DashboardPage.js:205-207 expects that prefix.
- After a user reconnects on a new socket, the disconnect of the old socket
  still finds that socket's entry. It then takes the user offline even
  though the new socket is still connected
  (`Registry.StaleSocketAfterReconnect`).

The message document follows the fields the socket handler writes, not only
those that chat-backend/models/Message.js declares. That schema has no file,
reply, edit, deletion or reaction fields, and it requires `content`.
`SocketHandlers.FileOnlyMessageBreaksSchema` shows that a file-only message
passes the handler's guard but breaks that schema as written.

chat-backend/routes/messageRoutes.js:9-12 imports `uploadChatFile` from the
upload middleware, which exports only `upload` and `handleMulterError`
(chat-backend/middleware/uploadMiddleware.js:79). The import therefore
yields `undefined`, and `uploadChatFile.single("chatfile")` at
chat-backend/routes/messageRoutes.js:20 throws a TypeError while the module
loads. As written, `require("./routes/messageRoutes")` at
chat-backend/server.js:46 throws, and the process ends before
`httpServer.listen` at chat-backend/server.js:76, so no route and no socket
handler is reachable at all. The model describes the route handlers
as they would behave with a working uploader. The chat-file upload route is
modelled from its handler body, with the uploaded file as its input.

## Model

| member | source | states |
|---|---|---|
| Models.FirstIndex | chat-backend/socket/socketHandlers.js:237-239 | the first position satisfying the predicate, or -1 exactly when none does, as `findIndex` and `find` return |
| Models.Trim | chat-backend/models/Message.js:20 | the schema's `trim` option: the content with leading and trailing white space removed, which drops only white space and leaves nothing to drop (stated by `Models.TrimSpec` and `Models.TrimIdempotent`) |
| Models.TrimSlice | chat-backend/models/Message.js:20 | trimmed content is one contiguous slice of the input with only white space before and after it |
| Models.TrimSpec | chat-backend/models/Message.js:18-22 | trimmed content has no white space at either end, drops only white space, and is empty exactly when the input is all white space |
| Models.TrimIdempotent | chat-backend/models/Message.js:20 | trimming already trimmed content changes nothing |
| Models.Utf16Length | chat-backend/routes/authRoutes.js:23-27 | `length` counts UTF-16 code units: between one and two per character, exactly one per character in the Basic Multilingual Plane |
| Models.ParseStatus | chat-backend/models/Message.js:27-31 | the status enum accepts exactly "sent", "delivered" and "read", each naming its status |
| Models.StatusNameRoundTrip | chat-backend/models/Message.js:27-31 | every status's stored name is in the enum and parses back to the same status |
| Models.NewMessage | chat-backend/models/Message.js:18-40 | a new document has trimmed content, the default status "sent", only its sender in `readBy`, no reactions, and is well formed |
| Models.SchemaAccepts | chat-backend/models/Message.js:8-22 | a message passes the schema's required validators exactly when its conversation, sender and trimmed content are non-empty (used by `SocketHandlers.TextMessageMeetsSchema`, `SocketHandlers.FileOnlyMessageBreaksSchema` and `MessageRoutes.BlankEditBreaksSchema`) |
| Store.ReplaceKeepsInPlace | chat-backend/routes/messageRoutes.js:105-107 | saving a message back under its own id keeps every message at its id and well formed |
| Store.AppendKeepsInPlace | chat-backend/socket/socketHandlers.js:76-89 | appending a well-formed message under the next id keeps every message at its id |
| Store.UserIndex | chat-backend/routes/keyRoutes.js:27 | `findById`: -1 exactly when no user has the id, and otherwise the position of a user with that id |
| Store.UserIndexByEmail | chat-backend/routes/authRoutes.js:94 | `findOne({ email })`: -1 exactly when no user has the email, and otherwise the first user with it |
| Store.AdminIndexByQuery | chat-backend/routes/adminAuthRoutes.js:123 | `findOne({ email })`: a string finds what `Store.AdminIndexByEmail` finds; a match-any operator finds the first administrator, and nothing exactly when there are none |
| Store.Truthy | chat-backend/routes/adminAuthRoutes.js:117 | the `!email` guard: only the empty string is falsy, and an object is truthy |
| Store.AdminIndexByEmail | chat-backend/routes/adminAuthRoutes.js:78 | `findOne({ email })` on administrators: -1 exactly when no administrator has the email, and otherwise one that has it |
| Store.UpdateUser | chat-backend/routes/keyRoutes.js:16 | `findByIdAndUpdate`: the first record with the id is updated and every other record is unchanged |
| Registry.IsUserId | chat-backend/socket/socketHandlers.js:16-20 | a handshake id counts only when it is non-empty and neither the text "null" nor "undefined" (stated through `Registry.Connect`, which registers exactly such ids) |
| Registry.Identifies | chat-backend/socket/socketHandlers.js:14-20 | the handshake carries a user id that `Registry.IsUserId` accepts; `Registry.Connect` leaves the table unchanged when it fails and registers the socket when it holds |
| Registry.Connect | chat-backend/socket/socketHandlers.js:12-31 | a handshake with a usable user id maps the user to the socket and the socket to the user, and every other user and socket keeps its entry; any other handshake changes nothing |
| Registry.Disconnect | chat-backend/socket/socketHandlers.js:293-298 | a registered socket's user is taken offline and the socket unregistered, every other entry is kept and none is added; an unregistered socket changes nothing |
| Registry.ConnectKeepsConsistent | chat-backend/socket/socketHandlers.js:16-26 | connecting a never-seen socket keeps every online user's socket registered back to that user |
| Registry.DisconnectKeepsConsistent | chat-backend/socket/socketHandlers.js:295-298 | disconnecting keeps the registry consistent |
| Registry.ConnectThenDisconnect | chat-backend/socket/socketHandlers.js:12-31 | connecting on a socket and disconnecting it leaves the user offline and the socket unregistered |
| Registry.LastConnectWins | chat-backend/socket/socketHandlers.js:24-25 | after several connects with one user id, the user is reached on the last socket |
| Registry.AdminFlagIgnored | chat-backend/socket/socketHandlers.js:14-26 | the `isAdmin` flag has no effect, and an administrator is listed online under the bare id |
| Registry.StaleSocketAfterReconnect | chat-backend/socket/socketHandlers.js:293-298 | after a reconnect on a second socket, the disconnect of the first still takes the user offline while the second socket stays registered |
| Reactions.ReactionIndex | chat-backend/socket/socketHandlers.js:237-239 | the position of the user's first reaction, or -1 exactly when the user has none |
| Reactions.Toggle | chat-backend/socket/socketHandlers.js:237-253 | the reactor's reaction is removed when the emoji is the same, replaced when it differs, and appended when there is none (stated by `Reactions.ToggleCases`, `Reactions.ToggleEffect`, `Reactions.ToggleKeepsOthers` and `Reactions.ToggleTwiceRestores`) |
| Reactions.ToggleCases | chat-backend/socket/socketHandlers.js:237-253 | a user without a reaction gets one appended; the same emoji again removes it; another emoji replaces it in place |
| Reactions.ToggleKeepsOthers | chat-backend/socket/socketHandlers.js:237-253 | the toggle never changes another user's reactions or their order |
| Reactions.ToggleEffect | chat-backend/socket/socketHandlers.js:237-253 | the toggle keeps one reaction per user and sets the user's emoji to the new one, or to none when it was already that emoji |
| Reactions.ToggleTwiceRestores | chat-backend/socket/socketHandlers.js:237-253 | reacting twice with the same emoji, starting from no reaction, restores the list |
| Reactions.ChangeOfMind | chat-backend/socket/socketHandlers.js:237-253 | reacting with one emoji and then another leaves exactly the second emoji |
| ReadReceipts.Unread | chat-backend/socket/socketHandlers.js:191-195 | the update's filter: a message of the conversation, sent by someone else, whose status is not read |
| ReadReceipts.AddToSet | chat-backend/socket/socketHandlers.js:198 | `$addToSet` holds the old elements and the new one, with no duplicates added |
| ReadReceipts.MarkOne | chat-backend/socket/socketHandlers.js:196-199 | the update on one message: a matching message becomes read with the reader added once to `readBy`, any other is left as it is (stated by `ReadReceipts.MarkOneEffect`) |
| ReadReceipts.CountUnread | chat-backend/socket/socketHandlers.js:190-206 | `modifiedCount`: the number of messages the filter matches; it is zero exactly when the update changes nothing (stated by `ReadReceipts.CountUnreadZero` and `ReadReceipts.NoUnreadNoChange`) |
| ReadReceipts.MarkRead | chat-backend/socket/socketHandlers.js:190-200 | the update applies to each message independently and keeps the collection's length |
| ReadReceipts.CountUnreadZero | chat-backend/socket/socketHandlers.js:190-205 | `modifiedCount` is zero exactly when no message matches the filter |
| ReadReceipts.MarkOneEffect | chat-backend/socket/socketHandlers.js:190-200 | a matching message becomes "read" with the reader added; any other message is unchanged |
| ReadReceipts.MarkReadKeepsIds | chat-backend/socket/socketHandlers.js:190-200 | the update keeps every message at its id and well formed |
| ReadReceipts.MarkReadIdempotent | chat-backend/socket/socketHandlers.js:190-200 | running the update twice is the same as running it once |
| ReadReceipts.NothingUnreadAfter | chat-backend/socket/socketHandlers.js:190-205 | after the update nothing is left to modify, so a repeated call sends no notice |
| ReadReceipts.NoUnreadNoChange | chat-backend/socket/socketHandlers.js:190-200 | with nothing unread the update changes nothing |
| SocketHandlers.MissingData | chat-backend/socket/socketHandlers.js:68 | a send is refused when the conversation or sender is missing, or when there is neither content nor a file (stated through `SocketHandlers.SocketServer.SendMessage`) |
| SocketHandlers.Compose | chat-backend/socket/socketHandlers.js:76-89 | the saved document has the payload's ids, status "sent", only the sender in `readBy`, no reactions, and is well formed |
| SocketHandlers.FileOnlyMessageBreaksSchema | chat-backend/socket/socketHandlers.js:68-89 | a message with a file and no text passes the guard, and the document saved for it breaks the schema's `required` content |
| SocketHandlers.TextMessageMeetsSchema | chat-backend/socket/socketHandlers.js:68-89 | a message whose text is not blank is saved as a document the schema accepts |
| SocketHandlers.OtherParticipant | chat-backend/socket/socketHandlers.js:113-115 | the first participant other than the given user, or none exactly when every participant is that user |
| SocketHandlers.DeliveryRecipient | chat-backend/socket/socketHandlers.js:107-114 | only a two-person direct chat has a recipient, the first participant other than the sender (stated by `SocketHandlers.DeliveryOnlyInDirectChats` and `SocketHandlers.DirectChatDelivery`) |
| SocketHandlers.Delivers | chat-backend/socket/socketHandlers.js:107-118 | a message is marked delivered exactly when that recipient exists and is online (stated through `SocketHandlers.SocketServer.SendMessage`) |
| SocketHandlers.DeliveryOnlyInDirectChats | chat-backend/socket/socketHandlers.js:109-130 | a message is marked delivered only in a two-person, non-group conversation whose other participant is online |
| SocketHandlers.DirectChatDelivery | chat-backend/socket/socketHandlers.js:109-130 | between two different users, a message is delivered exactly when the other user is online |
| SocketHandlers.ReadNotice | chat-backend/socket/socketHandlers.js:206-218 | one `messagesRead` notice exactly when something was modified and the first participant other than the reader is online, sent to that participant's socket; otherwise none |
| SocketHandlers.ReadNoticeFirstOnly | chat-backend/socket/socketHandlers.js:206-218 | in a group whose first participant after the reader is offline, nobody is notified even when a later participant is online |
| SocketHandlers.TouchLastSeen | chat-backend/socket/socketHandlers.js:301-303 | only `lastSeen` changes, only on the disconnected user's record, and it becomes the disconnect time |
| SocketHandlers.UpdateMany | chat-backend/socket/socketHandlers.js:190-200 | the loop over the collection yields the read-receipt update and its `modifiedCount` |
| SocketHandlers.SocketServer.constructor | chat-backend/socket/socketHandlers.js:8-9 | the server starts with no one online, no rooms and no events |
| SocketHandlers.SocketServer.Connect | chat-backend/socket/socketHandlers.js:12-31 | the registry becomes `Registry.Connect` of the old one, and the online list is broadcast exactly when a user registered |
| SocketHandlers.SocketServer.JoinConversation | chat-backend/socket/socketHandlers.js:33-40 | the socket is added to the conversation's room and no other room changes |
| SocketHandlers.SocketServer.LeaveConversation | chat-backend/socket/socketHandlers.js:42-49 | the socket is removed from that room only |
| SocketHandlers.SocketServer.SendMessage | chat-backend/socket/socketHandlers.js:51-142 | missing data: an error to the caller and nothing saved; unknown conversation: the message is saved and the caller gets an error; otherwise saved, made the last message, broadcast to the room, and marked delivered with a notice to the sender when the direct recipient is online |
| SocketHandlers.SocketServer.ShareGroupKey | chat-backend/socket/socketHandlers.js:145-175 | the key goes to the recipient's socket only, and is dropped when a field is missing or the recipient is offline |
| SocketHandlers.SocketServer.MarkMessagesAsRead | chat-backend/socket/socketHandlers.js:177-222 | for a registered reader and a known conversation, the collection becomes the read-receipt update and the read notice is sent; otherwise nothing changes |
| SocketHandlers.SocketServer.ReactToMessage | chat-backend/socket/socketHandlers.js:224-271 | missing data: an error; unknown message: nothing; otherwise the reactor's reaction is toggled and the message broadcast, or an error to the caller when the conversation id is absent |
| SocketHandlers.SocketServer.Typing | chat-backend/socket/socketHandlers.js:273-291 | a typing or stop-typing notice goes to the room without the sender, only from a registered socket with a conversation id |
| SocketHandlers.SocketServer.Disconnect | chat-backend/socket/socketHandlers.js:293-319 | the registry becomes `Registry.Disconnect` of the old one, the socket leaves every room, and for a registered socket `lastSeen` is set and the online list broadcast |
| MessageRoutes.UploadFile | chat-backend/routes/messageRoutes.js:24-37 | no file: 400 "No file uploaded."; otherwise 200 with the URL under /uploads/chat_files/ ending in the stored name, and the original name and MIME type |
| MessageRoutes.UploadUrlsDistinct | chat-backend/routes/messageRoutes.js:29 | files stored under different names get different URLs |
| MessageRoutes.InConversation | chat-backend/routes/messageRoutes.js:66-68 | the query returns exactly the conversation's messages, each as often as stored |
| MessageRoutes.InsertBy | chat-backend/routes/messageRoutes.js:70 | inserting into a sorted list keeps it sorted and adds exactly that element |
| MessageRoutes.SortBy | chat-backend/routes/messageRoutes.js:70 | the result is sorted by the key and is a permutation of the input |
| MessageRoutes.InsertByKeepsTies | chat-backend/routes/messageRoutes.js:70 | the inserted element goes before every element with an equal key, so equal keys keep their order |
| MessageRoutes.SortByStable | chat-backend/routes/messageRoutes.js:70 | the sort is stable: the elements sharing a key come out in their input order |
| MessageRoutes.SortByTime | chat-backend/routes/messageRoutes.js:70 | `sort({ createdAt: 1 })`: oldest first, a permutation of the input |
| MessageRoutes.GetMessages | chat-backend/routes/messageRoutes.js:57-72 | 404 for an unknown conversation, 403 for a non-participant, otherwise 200 with exactly the conversation's messages in chronological order |
| MessageRoutes.HistoryMembership | chat-backend/routes/messageRoutes.js:66-72 | for a participant, a message is in the history exactly when it is stored under that conversation |
| MessageRoutes.Edited | chat-backend/routes/messageRoutes.js:105-106 | an edit sets the trimmed content and marks the message edited |
| MessageRoutes.SoftDeleted | chat-backend/routes/messageRoutes.js:141-146 | a delete replaces the content with the deletion notice, clears the file fields and sets `deletedAt` |
| MessageRoutes.EditedChangesOnlyContent | chat-backend/routes/messageRoutes.js:105-106 | an edit changes nothing but content and the edited flag, keeps the message well formed, and the last edit wins |
| MessageRoutes.EditedIdempotent | chat-backend/routes/messageRoutes.js:105-107 | saving an edited message's own content again changes nothing |
| MessageRoutes.SoftDeletedChangesOnlyShown | chat-backend/routes/messageRoutes.js:141-147 | a delete changes only content, file fields and `deletedAt`, keeps the message well formed, and deleting again only moves `deletedAt` |
| MessageRoutes.BlankEditBreaksSchema | chat-backend/routes/messageRoutes.js:105-107 | an edit to blank content stores empty content, which the schema's `required` content refuses |
| MessageRoutes.EditAfterDelete | chat-backend/routes/messageRoutes.js:94-107 | the edit route has no deletion guard: a deleted message can be given new content and stays marked deleted |
| MessageRoutes.EditMessage | chat-backend/routes/messageRoutes.js:94-117 | 404 for an unknown id, 403 for anyone but the sender (nothing changed), otherwise the message is replaced by its edit and returned |
| MessageRoutes.DeleteMessage | chat-backend/routes/messageRoutes.js:131-157 | 404 for an unknown id, 403 for anyone but the sender (nothing changed), otherwise the message is replaced by its soft deletion and returned |
| MessageRoutes.DeletedStaysInHistory | chat-backend/routes/messageRoutes.js:126-147 | a deleted message is still in its conversation's history, showing the deletion notice |
| KeyRoutes.ValidPublicKey | chat-backend/routes/keyRoutes.js:11 | a key is accepted when it is a string of at least ten UTF-16 code units (stated by `KeyRoutes.ValidPublicKeyBmp` and `KeyRoutes.UploadPublicKey`) |
| KeyRoutes.ValidPublicKeyBmp | chat-backend/routes/keyRoutes.js:11 | for a key of Basic Multilingual Plane characters, the guard accepts exactly ten or more characters |
| KeyRoutes.SetPublicKey | chat-backend/routes/keyRoutes.js:16 | the requester's record gets the key, replacing any earlier one; every other record and field is unchanged; a missing requester changes nothing |
| KeyRoutes.UploadPublicKey | chat-backend/routes/keyRoutes.js:8-22 | an invalid key: 400 and nothing stored; a valid one is stored on the requester and answered with 200 |
| KeyRoutes.SetPublicKeyKeepsUnique | chat-backend/routes/keyRoutes.js:16 | storing a key keeps user ids and emails unique |
| KeyRoutes.GetPublicKey | chat-backend/routes/keyRoutes.js:25-34 | 404 exactly when the user is missing or has no key or an empty one; otherwise 200 with that user's key |
| KeyRoutes.UploadThenLookup | chat-backend/routes/keyRoutes.js:8-34 | after a valid upload by an existing user, the lookup returns exactly the uploaded key |
| KeyRoutes.UploadLeavesOthers | chat-backend/routes/keyRoutes.js:8-34 | an upload changes no other user's lookup |
| AuthRoutes.ViewHidesPassword | chat-backend/routes/authRoutes.js:54-66 | the user returned by signup and login does not depend on the stored password |
| AuthRoutes.SignupRejection | chat-backend/routes/authRoutes.js:17-35 | every rejection is a 400; a missing field is reported first; a request passes exactly when all fields are present, the password has six code units and the email is new |
| AuthRoutes.NewUser | chat-backend/routes/authRoutes.js:38-44 | the new user has the request's name and email, the hashed password, and no public key |
| AuthRoutes.SignupKeepsUnique | chat-backend/routes/authRoutes.js:29-44 | a signup that passes the guards keeps user ids and emails unique |
| AuthRoutes.SignupsKeepUnique | chat-backend/routes/authRoutes.js:29-44 | emails and ids stay unique over any sequence of signups |
| AuthRoutes.Signup | chat-backend/routes/authRoutes.js:12-66 | a rejected request changes nothing; otherwise the user is saved and 201 returns a token naming that user |
| AuthRoutes.Login | chat-backend/routes/authRoutes.js:83-128 | 400 for a missing field, 401 "User not found." for an unknown email, 401 "Password incorrect." exactly when the stored user's check fails, and otherwise 200 with that user's session |
| AuthRoutes.SignupThenLogin | chat-backend/routes/authRoutes.js:12-128 | logging in with the credentials just registered yields the new user and the same claims |
| AdminAuthRoutes.CanSign | chat-backend/routes/adminAuthRoutes.js:44-46 | `jwt.sign` needs a secret that is set and not empty; without one each signing route answers 500 (stated by `AdminAuthRoutes.EmptySecretNeverSigns` and the signing routes' contracts) |
| AdminAuthRoutes.InvitationAccepted | chat-backend/routes/adminAuthRoutes.js:19 | the strict comparison of the invitation code with the setting, so an unset setting and an absent code agree (stated by `AdminAuthRoutes.InvitationCases`) |
| AdminAuthRoutes.InvitationCases | chat-backend/routes/adminAuthRoutes.js:19-23 | with the setting unset, a request without a code passes; with it set, only the exact code passes |
| AdminAuthRoutes.AdminSignupRejection | chat-backend/routes/adminAuthRoutes.js:19-39 | a wrong code is a 403; every other rejection is a 400; a request passes exactly when the code matches, all fields are present, the password is long enough and the email is new |
| AdminAuthRoutes.WrongCodeFirst | chat-backend/routes/adminAuthRoutes.js:19-26 | a wrong code is reported even when every field is missing |
| AdminAuthRoutes.NewAdmin | chat-backend/routes/adminAuthRoutes.js:41-42 | the new administrator has the request's name and email and the hashed password |
| AdminAuthRoutes.AdminSignupKeepsUnique | chat-backend/routes/adminAuthRoutes.js:34-42 | a signup that passes the guards keeps administrator ids and emails unique |
| AdminAuthRoutes.AdminSignup | chat-backend/routes/adminAuthRoutes.js:15-61 | a rejected request changes nothing; otherwise the administrator is saved, and the reply is 201, or 500 when the signing secret is unset or empty |
| AdminAuthRoutes.AdminLogin | chat-backend/routes/adminAuthRoutes.js:68-103 | 400 for a missing field; the same 401 for an unknown email and for a failed check; for the stored administrator whose check passes, 200 with that administrator's session, or 500 when the signing secret is unset or empty |
| AdminAuthRoutes.LoginFailuresIndistinguishable | chat-backend/routes/adminAuthRoutes.js:78-86 | an unknown email and a wrong password get the same 401 reply |
| AdminAuthRoutes.BiometricLogin | chat-backend/routes/adminAuthRoutes.js:113-145 | 400 for a falsy email and 404 when `findOne` finds nothing; success exactly when it finds an administrator and the signing secret is usable, with that administrator's token and view (for a string email, an administrator with that email); 500 when no usable secret |
| AdminAuthRoutes.QueryOperatorTakesFirstAdmin | chat-backend/routes/adminAuthRoutes.js:115-135 | a query operator in place of the email gets the first administrator's token with no email known, and a 404 only when there are no administrators |
| AdminAuthRoutes.BiometricNeedsOnlyEmail | chat-backend/routes/adminAuthRoutes.js:113-145 | whoever knows a registered email and fails the password login still gets that administrator's token from the biometric route |
| AdminAuthRoutes.EmptySecretNeverSigns | chat-backend/routes/adminAuthRoutes.js:88-90 | with the signing secret set to the empty string neither login route succeeds, and a registered email gets the biometric route's 500 |
| AdminAuthRoutes.AdminSignupThenLogin | chat-backend/routes/adminAuthRoutes.js:15-100 | logging in with the credentials just registered yields the new administrator |
| UploadMiddleware.LastIndexOf | chat-backend/middleware/uploadMiddleware.js:27 | the last position of the character, or -1 exactly when it does not occur |
| UploadMiddleware.StripTrailingSlashes | chat-backend/middleware/uploadMiddleware.js:27 | a prefix without a final slash, and only slashes were dropped |
| UploadMiddleware.Basename | chat-backend/middleware/uploadMiddleware.js:27 | the last path segment holds no slash |
| UploadMiddleware.ExtName | chat-backend/middleware/uploadMiddleware.js:27 | `path.extname` is empty or a dot followed by no further dot and no slash |
| UploadMiddleware.ExtNameIsSuffix | chat-backend/middleware/uploadMiddleware.js:37 | for a name without slashes, the extension is a suffix of the name |
| UploadMiddleware.ExtNameOfPlainName | chat-backend/middleware/uploadMiddleware.js:37 | for a plain name, the extension starts at the last dot when it is not the first character |
| UploadMiddleware.ToLower | chat-backend/middleware/uploadMiddleware.js:37 | lower-casing keeps the length and maps each ASCII capital to its small letter |
| UploadMiddleware.Matches | chat-backend/middleware/uploadMiddleware.js:35 | an unanchored regular-expression test: the word occurs somewhere in the text (stated by `UploadMiddleware.MatchesIff`) |
| UploadMiddleware.MatchesIff | chat-backend/middleware/uploadMiddleware.js:35-39 | the unanchored test succeeds exactly when the pattern occurs at some position |
| UploadMiddleware.FirstCharAbsent | chat-backend/middleware/uploadMiddleware.js:35-39 | a pattern whose first character does not occur never matches |
| UploadMiddleware.ImageTypeIn | chat-backend/middleware/uploadMiddleware.js:35-39 | the `filetypes` regular-expression test: one of the four image names occurs in the text (stated by `UploadMiddleware.ImageTypeInIff`) |
| UploadMiddleware.ImageTypeInIff | chat-backend/middleware/uploadMiddleware.js:35 | the image-name pattern succeeds exactly when one of the four names occurs |
| UploadMiddleware.NoImageLetters | chat-backend/middleware/uploadMiddleware.js:35 | a string without 'j', 'p' and 'g' fails the test |
| UploadMiddleware.FileFilter | chat-backend/middleware/uploadMiddleware.js:33-46 | a refusal always carries the images-only error |
| UploadMiddleware.FileFilterIff | chat-backend/middleware/uploadMiddleware.js:33-46 | a file is accepted exactly when both the lower-cased extension and the MIME type as sent pass the test |
| UploadMiddleware.NoExtensionRejected | chat-backend/middleware/uploadMiddleware.js:37-44 | a name without an extension is refused whatever its type |
| UploadMiddleware.UpperCaseExtensionAccepted | chat-backend/middleware/uploadMiddleware.js:37 | the extension's case does not matter: NAME.PNG with type image/png is accepted |
| UploadMiddleware.UpperCaseMimeTypeRejected | chat-backend/middleware/uploadMiddleware.js:39 | the MIME type is not lower-cased: IMAGE/PNG is refused whatever the name |
| UploadMiddleware.DotFileRejected | chat-backend/middleware/uploadMiddleware.js:37 | ".png" has no extension and is refused whatever its type |
| UploadMiddleware.UnanchoredMatchAccepted | chat-backend/middleware/uploadMiddleware.js:35-41 | the test is unanchored: the extension ".jpgz" with type application/x-png is accepted |
| UploadMiddleware.Decimal | chat-backend/middleware/uploadMiddleware.js:27 | a number prints as a non-empty string of decimal digits |
| UploadMiddleware.DecimalRoundTrip | chat-backend/middleware/uploadMiddleware.js:27 | the printed digits read back as the same number |
| UploadMiddleware.StoredFilename | chat-backend/middleware/uploadMiddleware.js:24-28 | `avatar-`, the user id or `anonymous`, `-`, the time in decimal and the original extension (stated by `UploadMiddleware.StoredFilenameParts` and `UploadMiddleware.StoredFilenamesDistinct`) |
| UploadMiddleware.StoredFilenameParts | chat-backend/middleware/uploadMiddleware.js:21-29 | a stored name starts with "avatar-", the uploader's id or "anonymous" and a dash, and ends with the original extension |
| UploadMiddleware.StoredFilenamesDistinct | chat-backend/middleware/uploadMiddleware.js:21-29 | two uploads by the same user with the same extension at different times get different names |
| UploadMiddleware.HandleMulterError | chat-backend/middleware/uploadMiddleware.js:56-77 | no error passes on; a Multer error is a 400 ("File too large." for the size limit); the images-only error is a 400; any other error is a 500 |
| UploadMiddleware.UploadCheck | chat-backend/middleware/uploadMiddleware.js:41-53 | no error exactly when the filter accepts and the file is at most 2 MB |
| UploadMiddleware.UploadOutcome | chat-backend/middleware/uploadMiddleware.js:49-77 | a refused file gets 400 with the images-only message, an accepted one over 2 MB gets 400 "File too large", and any other file reaches the route |

## Left out

- Sockets, HTTP and MongoDB themselves are not modelled: each handler and route is one atomic step on in-memory collections, and concurrent handlers do not interleave.
- The `catch` blocks in the routes and the socket handlers are not modelled: a malformed ObjectId's CastError and a failed save or update never happen in the model. In the routes these blocks answer 500; the exception is the 500 caused by an unset or empty signing secret, which is modelled. In the socket handlers they emit `messageError` for a send (chat-backend/socket/socketHandlers.js:135-141) and for a reaction (:265-270), and swallow the error for read receipts (:219-221). The `UserSocket.findById` of a reaction (:226) runs outside the `try`, so a malformed id there is an unhandled rejection; that is not modelled either.
- The `lastSeen` update's failure log on disconnect is not modelled, and neither are console output and the upload directory's creation.
- Populating the sender, the conversation and the participants is not modelled: the model returns ids where the routes return populated documents.
- Mongoose strict mode is not modelled: the handler's fields that chat-backend/models/Message.js does not declare are stored as written. These include the file fields, `isEdited`, `deletedAt`, `reactions` and the reply fields.
- The schema's `required` validators are not applied on save, so the failed saves they would cause are not modelled. Three cases follow:
  - a file-only message is saved with empty content (`SocketHandlers.FileOnlyMessageBreaksSchema`); as written, the save would fail;
  - a message whose content is only white space and that has no file is saved with empty content;
  - an edit with blank or missing content, covered in the next line.
- MessageRoutes.EditMessage: an edit with blank or missing content answers 200 with empty content. As written, `save()` at chat-backend/routes/messageRoutes.js:107 fails, and the route answers 500 "Server error editing message." with the message unchanged (`MessageRoutes.BlankEditBreaksSchema`).
- A message's `createdAt` comes from the clock parameter. Its `updatedAt` (the schema's `timestamps: true` at chat-backend/models/Message.js:42) is not modelled, and neither is a conversation's `updatedAt`.
- chat-backend/models/User.js, Admin.js and Conversation.js are not part of this model. Their validators (a ValidationError becoming a 400 at chat-backend/routes/authRoutes.js:67-77), email normalisation and the default picture are not modelled; a new user's picture is "".
- Password hashing and comparison are parameters, and so are JWT signing, the invitation and signing secrets, the clock and fresh ids. A token is modelled by its claims and expiry is left out.
- A duplicate `_id` is excluded by a freshness precondition on the new id, and the database's E11000 error is not modelled.
- MongoDB does not specify the order of messages with equal `createdAt`. The model keeps their stored order (`MessageRoutes.SortByStable`).
- `UploadMiddleware.ToLower` lower-cases ASCII letters only. Full Unicode case mapping is not modelled; image extensions are ASCII.
- Authentication middleware (`protect`) is not part of this model: the requester's id is an input. chat-backend/routes/keyRoutes.js:5 imports it as the module itself while chat-backend/routes/messageRoutes.js:4 destructures `{ protect }`, so the two imports assume different export shapes. Which of them works depends on chat-backend/middleware/authMiddleware.js, which is not part of this model; a function with a `protect` property would serve both.
- The chat-file upload's Multer stage is not modelled: messageRoutes.js imports `uploadChatFile`, which the upload middleware does not export. `MessageRoutes.UploadFile` takes the stored file as input. The profile-picture uploader `upload` is modelled by `UploadMiddleware.UploadCheck`.
- WebAuthn verification (chat-backend/routes/webauthnRoutes.js) is not part of this model; the biometric route itself checks nothing but the email.
- The `activeUsers` broadcast sends `Object.keys(activeUsers)`, an array in insertion order (chat-backend/socket/socketHandlers.js:26 and :314). The model sends the set of online ids, so that order is not modelled. The dictionary is a plain object while the model uses a map: the handshake id "__proto__" passes the guard, but assigning it at chat-backend/socket/socketHandlers.js:24 hits the inherited setter, so the source never lists that user; the model lists it, and `Registry.LastConnectWins` does not hold for that id in the source.
- Request fields other than the biometric email are strings in the model. Non-string JSON values (objects holding query operators, numbers, arrays) are not modelled for `AuthRoutes.SignupRejection`, `AuthRoutes.Signup`, `AuthRoutes.Login`, `AdminAuthRoutes.AdminSignupRejection`, `AdminAuthRoutes.AdminSignup` and `AdminAuthRoutes.AdminLogin`. There the email likewise reaches `findOne` unchanged (chat-backend/routes/authRoutes.js:30 and :94, chat-backend/routes/adminAuthRoutes.js:34 and :78): a signup whose email is `{ "$gt": "" }` is refused as a duplicate whenever any account exists, and a login with an operator checks the password of the first matching account. For the biometric route the consequence is modelled: no email is needed to obtain a token (`AdminAuthRoutes.QueryOperatorTakesFirstAdmin`).
- Socket.IO's `socket.to(room)` semantics come from its documentation: the emitting socket is excluded. Room membership on disconnect is cleared by the transport.
