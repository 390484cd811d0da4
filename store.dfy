/**
 * The MongoDB collections the modelled handlers read and write, as one
 * mutable object. A collection is a sequence in natural (insertion) order,
 * so `findOne` is "the first matching document"; messages are addressed by
 * their position, which stands for their ObjectId.
 */
module Store {
  import opened Models

  class Db {
    var messages: seq<Message>
    var conversations: map<ConversationId, Conversation>
    var users: seq<User>
    var admins: seq<Admin>

    /** Each message sits at the position named by its id and is well formed;
        user and administrator ids and emails are unique. */
    ghost predicate Valid()
      reads this
    {
      && StoredInPlace(messages)
      && UniqueUsers(users)
      && UniqueAdmins(admins)
    }

    /** A database whose conversations were created elsewhere (the
        conversation routes are not part of this model). */
    constructor (conversations: map<ConversationId, Conversation>)
      ensures Valid()
      ensures this.conversations == conversations
      ensures messages == [] && users == [] && admins == []
    {
      this.conversations := conversations;
      messages, users, admins := [], [], [];
    }
  }

  /** Each message sits at the position named by its id and is well formed. */
  predicate StoredInPlace(ms: seq<Message>) {
    forall i :: 0 <= i < |ms| ==> ms[i].id == i && WellFormed(ms[i])
  }

  /** Overwriting one stored message with a well-formed message of the same
      id keeps the collection in place. */
  lemma ReplaceKeepsInPlace(ms: seq<Message>, i: nat, m: Message)
    requires StoredInPlace(ms) && i < |ms| && m.id == ms[i].id && WellFormed(m)
    ensures StoredInPlace(ms[i := m])
  {
  }

  /** Appending a well-formed message whose id is the next position keeps
      the collection in place. */
  lemma AppendKeepsInPlace(ms: seq<Message>, m: Message)
    requires StoredInPlace(ms) && m.id == |ms| && WellFormed(m)
    ensures StoredInPlace(ms + [m])
  {
  }

  /** `User.findById(id)`: the position of the user with that id, or -1. */
  function UserIndex(users: seq<User>, id: UserId): (i: int)
    ensures -1 <= i < |users|
    ensures i == -1 <==> forall k :: 0 <= k < |users| ==> users[k].id != id
    ensures 0 <= i ==> users[i].id == id
  {
    FirstIndex(users, (u: User) => u.id == id)
  }

  /** `User.findOne({ email })`: the first user with that email, or -1. */
  function UserIndexByEmail(users: seq<User>, email: string): (i: int)
    ensures -1 <= i < |users|
    ensures i == -1 <==> forall k :: 0 <= k < |users| ==> users[k].email != email
    ensures 0 <= i ==> users[i].email == email && forall k :: 0 <= k < i ==> users[k].email != email
  {
    FirstIndex(users, (u: User) => u.email == email)
  }

  /** `Admin.findOne({ email })`. */
  function AdminIndexByEmail(admins: seq<Admin>, email: string): (i: int)
    ensures -1 <= i < |admins|
    ensures i == -1 <==> forall k :: 0 <= k < |admins| ==> admins[k].email != email
    ensures 0 <= i ==> admins[i].email == email
  {
    FirstIndex(admins, (a: Admin) => a.email == email)
  }

  /** A request's `email` as `findOne({ email })` receives it. The JSON
      body is not sanitised, so besides a string, compared for equality,
      it can be an object holding a query operator; `AnyEmail` stands for
      one such as `{ "$ne": null }`, which every stored email satisfies. */
  datatype EmailQuery = Exact(text: string) | AnyEmail

  /** JavaScript truthiness of the field: only the empty string is falsy,
      and any object is truthy. */
  predicate Truthy(q: EmailQuery) {
    q != Exact("")
  }

  /** `Admin.findOne({ email })` for either kind of query: the first
      administrator the query matches, or -1. */
  function AdminIndexByQuery(admins: seq<Admin>, q: EmailQuery): (i: int)
    ensures -1 <= i < |admins|
    ensures q.Exact? ==> i == AdminIndexByEmail(admins, q.text)
    ensures q.AnyEmail? ==> (i == -1 <==> admins == [])
    ensures q.AnyEmail? && admins != [] ==> i == 0
  {
    match q
    case Exact(e) => AdminIndexByEmail(admins, e)
    case AnyEmail => if admins == [] then -1 else 0
  }

  /** `User.findByIdAndUpdate(id, update)`: the user with that id is
      replaced by `update` of it; no user with that id leaves the
      collection as it was. */
  function UpdateUser(users: seq<User>, id: UserId, update: User -> User): (r: seq<User>)
    ensures |r| == |users|
    ensures UserIndex(users, id) == -1 ==> r == users
    ensures forall k :: 0 <= k < |users| && k != UserIndex(users, id) ==> r[k] == users[k]
    ensures 0 <= UserIndex(users, id) ==> r[UserIndex(users, id)] == update(users[UserIndex(users, id)])
  {
    var i := UserIndex(users, id);
    if i == -1 then users else users[i := update(users[i])]
  }
}
