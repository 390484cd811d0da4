/**
 * The public-key routes of chat-backend/routes/keyRoutes.js: a user
 * uploads one end-to-end-encryption public key, stored on the user's own
 * record, and anybody signed in fetches another user's key. The request
 * body's `publicKey` is `None` when it is not a JSON string at all.
 */
module KeyRoutes {
  import opened Models
  import opened Store

  /** The upload guard: a string of at least 10 UTF-16 code units. */
  predicate ValidPublicKey(publicKey: Option<string>) {
    publicKey.Some? && Utf16Length(publicKey.value) >= 10
  }

  /** A key whose characters all lie in the Basic Multilingual Plane, as a
      base64 or PEM text does, is valid exactly when it has 10 characters. */
  lemma ValidPublicKeyBmp(key: string)
    requires forall i :: 0 <= i < |key| ==> key[i] as int <= 0xFFFF
    ensures ValidPublicKey(Some(key)) <==> |key| >= 10
  {
  }

  function StoreKey(key: string): User -> User {
    (u: User) => u.(e2eePublicKey := Some(key))
  }

  /** `User.findByIdAndUpdate(req.user.id, { e2eePublicKey })`: the
      requester's record gets the key, replacing any earlier one; every
      other record, and every other field, stays as it was. A requester
      whose record no longer exists changes nothing. */
  function SetPublicKey(users: seq<User>, id: UserId, key: string): (r: seq<User>)
    ensures |r| == |users|
    ensures UserIndex(users, id) == -1 ==> r == users
    ensures forall k :: 0 <= k < |users| ==> r[k].id == users[k].id && r[k].email == users[k].email
    ensures forall k :: 0 <= k < |users| ==>
              r[k] == if k == UserIndex(users, id) then users[k].(e2eePublicKey := Some(key)) else users[k]
  {
    UpdateUser(users, id, StoreKey(key))
  }

  /** The upload route. An invalid key is refused with nothing stored; a
      valid one is stored on the requester, and the reply is the same
      success whether or not the requester's record still exists. */
  method UploadPublicKey(db: Db, requester: UserId, publicKey: Option<string>) returns (r: Reply<string>)
    requires db.Valid()
    modifies db`users
    ensures db.Valid()
    ensures !ValidPublicKey(publicKey) ==>
              r == Error(400, "A valid publicKey string is required.") && db.users == old(db.users)
    ensures ValidPublicKey(publicKey) ==>
              && r == Success(200, "Public key uploaded successfully")
              && db.users == SetPublicKey(old(db.users), requester, publicKey.value)
  {
    if publicKey.None? || Utf16Length(publicKey.value) < 10 {
      return Error(400, "A valid publicKey string is required.");
    }
    SetPublicKeyKeepsUnique(db.users, requester, publicKey.value);
    db.users := SetPublicKey(db.users, requester, publicKey.value);
    r := Success(200, "Public key uploaded successfully");
  }

  lemma SetPublicKeyKeepsUnique(users: seq<User>, id: UserId, key: string)
    requires UniqueUsers(users)
    ensures UniqueUsers(SetPublicKey(users, id, key))
  {
  }

  /** The lookup route: 404 unless the user exists and has a non-empty
      key; otherwise exactly that key. */
  function GetPublicKey(users: seq<User>, id: UserId): (r: Reply<string>)
    ensures r.Error? <==>
              UserIndex(users, id) == -1 || users[UserIndex(users, id)].e2eePublicKey in {None, Some("")}
    ensures r.Error? ==> r == Error(404, "Public key for this user not found.")
    ensures r.Success? ==>
              && r.status == 200 && r.body != ""
              && exists k :: 0 <= k < |users| && users[k].id == id && users[k].e2eePublicKey == Some(r.body)
  {
    var i := UserIndex(users, id);
    if i == -1 || users[i].e2eePublicKey.None? || users[i].e2eePublicKey.value == "" then
      Error(404, "Public key for this user not found.")
    else
      Success(200, users[i].e2eePublicKey.value)
  }

  /** Round trip: after a valid upload by an existing user, looking that
      user up returns exactly the uploaded key, whatever was there before. */
  lemma UploadThenLookup(users: seq<User>, id: UserId, key: string)
    requires UserIndex(users, id) != -1 && ValidPublicKey(Some(key))
    ensures GetPublicKey(SetPublicKey(users, id, key), id) == Success(200, key)
  {
    var after := SetPublicKey(users, id, key);
    var i := UserIndex(users, id);
    assert UserIndex(after, id) == i by {
      assert after[i].id == id;
    }
  }

  /** An upload changes no other user's lookup. */
  lemma UploadLeavesOthers(users: seq<User>, id: UserId, other: UserId, key: string)
    requires other != id
    ensures GetPublicKey(SetPublicKey(users, id, key), other) == GetPublicKey(users, other)
  {
    var after := SetPublicKey(users, id, key);
    var j := UserIndex(users, other);
    if j != -1 {
      assert after[j].id == other;
    }
  }
}
