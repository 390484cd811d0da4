/**
 * User signup and login (chat-backend/routes/authRoutes.js). The checks
 * run in a fixed order and the first that fails decides the reply. The
 * password is hashed by the user model before it is stored (the hash is a
 * parameter), login compares with the model's `comparePassword` (a
 * parameter too), and the signed token is represented by its claims.
 * A missing or falsy request field is the empty string.
 */
module AuthRoutes {
  import opened Models
  import opened Store

  datatype SignupRequest = SignupRequest(fullName: string, email: string, password: string)
  datatype LoginRequest = LoginRequest(email: string, password: string)

  /** The JWT payload `{ userId, email }`. */
  datatype Claims = Claims(userId: UserId, email: string)

  /** The user as the routes return it: no password field. */
  datatype UserView = UserView(id: UserId, fullName: string, email: string,
                               profilePictureUrl: string, createdAt: Timestamp)

  datatype Session = Session(message: string, token: Claims, user: UserView)

  function View(u: User): UserView {
    UserView(u.id, u.fullName, u.email, u.profilePictureUrl, u.createdAt)
  }

  /** The reply never depends on the stored password: two records that
      differ only in it are shown identically. */
  lemma ViewHidesPassword(u: User, hash: string)
    ensures View(u.(passwordHash := hash)) == View(u)
    ensures View(u).id == u.id && View(u).email == u.email && View(u).fullName == u.fullName
  {
  }

  const MinPasswordLength: nat := 6

  /** The signup guards in their order: a missing field, a password under
      six UTF-16 code units, an email already registered. `None` when the
      request passes them all. */
  function SignupRejection(users: seq<User>, req: SignupRequest): (r: Option<Reply<Session>>)
    ensures r.Some? ==> r.value.Error? && r.value.status == 400
    ensures req.fullName == "" || req.email == "" || req.password == "" ==>
              r == Some(Error(400, "Please provide full name, email, and password."))
    ensures r.None? <==>
              && req.fullName != "" && req.email != "" && req.password != ""
              && Utf16Length(req.password) >= MinPasswordLength
              && UserIndexByEmail(users, req.email) == -1
  {
    if req.fullName == "" || req.email == "" || req.password == "" then
      Some(Error(400, "Please provide full name, email, and password."))
    else if Utf16Length(req.password) < MinPasswordLength then
      Some(Error(400, "Password must be at least 6 characters long."))
    else if UserIndexByEmail(users, req.email) != -1 then
      Some(Error(400, "User with this email already exists."))
    else None
  }

  /** The document `new User({ fullName, email, password })` saves: the
      password hashed, no key, never seen. The schema's default picture
      (chat-backend/models/User.js is not part of this model) is empty. */
  function NewUser(id: UserId, req: SignupRequest, now: Timestamp, hash: string -> string): (u: User)
    ensures u.id == id && u.email == req.email && u.fullName == req.fullName
    ensures u.passwordHash == hash(req.password) && u.e2eePublicKey == None
  {
    User(id, req.fullName, req.email, hash(req.password), "", now, None, None)
  }

  /** A user who passes the guards keeps ids and emails unique, so emails
      stay unique over any sequence of signups. */
  lemma SignupKeepsUnique(users: seq<User>, req: SignupRequest, id: UserId, now: Timestamp, hash: string -> string)
    requires UniqueUsers(users) && UserIndex(users, id) == -1 && SignupRejection(users, req).None?
    ensures UniqueUsers(users + [NewUser(id, req, now, hash)])
  {
  }

  /** The user collection after a sequence of signups, the i-th request
      getting the i-th fresh id. */
  function SignupAll(users: seq<User>, reqs: seq<SignupRequest>, ids: seq<UserId>,
                     now: Timestamp, hash: string -> string): seq<User>
    requires |ids| == |reqs|
    decreases |reqs|
  {
    if reqs == [] then users
    else
      var next := if SignupRejection(users, reqs[0]).None? then users + [NewUser(ids[0], reqs[0], now, hash)] else users;
      SignupAll(next, reqs[1..], ids[1..], now, hash)
  }

  lemma {:induction false} SignupsKeepUnique(users: seq<User>, reqs: seq<SignupRequest>, ids: seq<UserId>,
                                             now: Timestamp, hash: string -> string)
    requires |ids| == |reqs| && NoDuplicates(ids)
    requires UniqueUsers(users) && forall i :: 0 <= i < |ids| ==> UserIndex(users, ids[i]) == -1
    ensures UniqueUsers(SignupAll(users, reqs, ids, now, hash))
    decreases |reqs|
  {
    if reqs != [] {
      var next := if SignupRejection(users, reqs[0]).None? then users + [NewUser(ids[0], reqs[0], now, hash)] else users;
      if SignupRejection(users, reqs[0]).None? {
        SignupKeepsUnique(users, reqs[0], ids[0], now, hash);
      }
      forall i | 0 <= i < |ids[1..]| ensures UserIndex(next, ids[1..][i]) == -1 {
        assert ids[1..][i] == ids[i + 1] != ids[0];
        assert UserIndex(users, ids[i + 1]) == -1;
      }
      SignupsKeepUnique(next, reqs[1..], ids[1..], now, hash);
    }
  }

  /** The signup route. `id` is the fresh ObjectId the new document gets. */
  method Signup(db: Db, req: SignupRequest, id: UserId, now: Timestamp, hash: string -> string)
    returns (r: Reply<Session>)
    requires db.Valid() && UserIndex(db.users, id) == -1
    modifies db`users
    ensures db.Valid()
    ensures SignupRejection(old(db.users), req).Some? ==>
              r == SignupRejection(old(db.users), req).value && db.users == old(db.users)
    ensures SignupRejection(old(db.users), req).None? ==>
              var u := NewUser(id, req, now, hash);
              && db.users == old(db.users) + [u]
              && r == Success(201, Session("User registered successfully!", Claims(id, req.email), View(u)))
  {
    var rejection := SignupRejection(db.users, req);
    if rejection.Some? {
      return rejection.value;
    }
    var newUser := NewUser(id, req, now, hash);
    SignupKeepsUnique(db.users, req, id, now, hash);
    db.users := db.users + [newUser];
    r := Success(201, Session("User registered successfully!", Claims(newUser.id, newUser.email), View(newUser)));
  }

  /** The login route: a missing field, then an unknown email, then a wrong
      password, each with its own message; otherwise the user found by
      email and a token naming that user. */
  function Login(users: seq<User>, req: LoginRequest, matches: (string, string) -> bool): (r: Reply<Session>)
    ensures req.email == "" || req.password == "" ==> r == Error(400, "Please provide email and password.")
    ensures req.email != "" && req.password != "" && UserIndexByEmail(users, req.email) == -1 ==>
              r == Error(401, "Invalid credentials. User not found.")
    ensures r.Success? ==>
              && r.status == 200 && r.body.message == "Logged in successfully!"
              && exists k :: 0 <= k < |users| && users[k].email == req.email
                   && matches(users[k].passwordHash, req.password)
                   && r.body.token == Claims(users[k].id, users[k].email) && r.body.user == View(users[k])
    ensures r.Error? && r.status == 401 && UserIndexByEmail(users, req.email) != -1 ==>
              r.message == "Invalid credentials. Password incorrect."
              && !matches(users[UserIndexByEmail(users, req.email)].passwordHash, req.password)
    ensures req.email != "" && req.password != "" && UserIndexByEmail(users, req.email) != -1 ==>
              var u := users[UserIndexByEmail(users, req.email)];
              && (!matches(u.passwordHash, req.password) ==> r == Error(401, "Invalid credentials. Password incorrect."))
              && (matches(u.passwordHash, req.password) ==>
                    r == Success(200, Session("Logged in successfully!", Claims(u.id, u.email), View(u))))
  {
    if req.email == "" || req.password == "" then Error(400, "Please provide email and password.")
    else
      var i := UserIndexByEmail(users, req.email);
      if i == -1 then Error(401, "Invalid credentials. User not found.")
      else if !matches(users[i].passwordHash, req.password) then
        Error(401, "Invalid credentials. Password incorrect.")
      else
        Success(200, Session("Logged in successfully!", Claims(users[i].id, users[i].email), View(users[i])))
  }

  /** Signing up and then logging in with the same email and password, when
      the password check accepts what the hash produced, yields the same
      user and the same token claims as the signup. */
  lemma SignupThenLogin(users: seq<User>, req: SignupRequest, id: UserId, now: Timestamp,
                        hash: string -> string, matches: (string, string) -> bool)
    requires SignupRejection(users, req).None?
    requires matches(hash(req.password), req.password)
    ensures var u := NewUser(id, req, now, hash);
            Login(users + [u], LoginRequest(req.email, req.password), matches) ==
              Success(200, Session("Logged in successfully!", Claims(id, req.email), View(u)))
  {
    var u := NewUser(id, req, now, hash);
    var after := users + [u];
    assert after[|users|] == u;
    assert UserIndexByEmail(after, req.email) == |users| by {
      assert forall k :: 0 <= k < |users| ==> after[k] == users[k];
    }
  }
}
