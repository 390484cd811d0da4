/**
 * Administrator signup, login and biometric login
 * (chat-backend/routes/adminAuthRoutes.js). Signup is gated by an
 * invitation code compared with the `ADMIN_SIGNUP_SECRET` setting; tokens
 * are signed with the `JWT_SECRET` setting, which has no fallback here, so
 * an unset or empty secret makes signing fail with a server error. Both settings
 * are parameters (`None` when unset), as are the password hash and check.
 * A missing or falsy request field is the empty string; only the
 * biometric route's email also admits a query-operator object.
 */
module AdminAuthRoutes {
  import opened Models
  import opened Store

  datatype AdminSignupRequest = AdminSignupRequest(fullName: string, email: string, password: string,
                                                   secretKey: Option<string>)

  /** The JWT payload `{ adminId }`. */
  datatype AdminClaims = AdminClaims(adminId: string)

  /** The administrator as the routes return it: no password field. */
  datatype AdminView = AdminView(id: string, fullName: string, email: string)

  datatype AdminSession = AdminSession(message: string, token: AdminClaims, admin: AdminView)

  function ViewAdmin(a: Admin): AdminView {
    AdminView(a.id, a.fullName, a.email)
  }

  /** Whether `jwt.sign` can sign with the setting: it throws for a
      missing or empty secret. */
  predicate CanSign(signingKey: Option<string>) {
    signingKey.Some? && signingKey.value != ""
  }

  /** `secretKey !== process.env.ADMIN_SIGNUP_SECRET`: a strict comparison
      of the two values, absent included. */
  predicate InvitationAccepted(secretKey: Option<string>, configured: Option<string>) {
    secretKey == configured
  }

  /** With the setting unset, a request that sends no code passes the
      invitation check; with it set, only the exact code does. */
  lemma InvitationCases(secretKey: Option<string>, configured: Option<string>)
    ensures configured.None? ==> (InvitationAccepted(secretKey, configured) <==> secretKey.None?)
    ensures configured.Some? ==>
              (InvitationAccepted(secretKey, configured) <==> secretKey.Some? && secretKey.value == configured.value)
  {
  }

  /** The signup guards in their order: the invitation code before
      anything else, then a missing field, then a short password, then an
      email already registered. `None` when the request passes them all. */
  function AdminSignupRejection(admins: seq<Admin>, req: AdminSignupRequest, configured: Option<string>)
    : (r: Option<Reply<AdminSession>>)
    ensures !InvitationAccepted(req.secretKey, configured) ==> r == Some(Error(403, "Invalid Invitation Code."))
    ensures InvitationAccepted(req.secretKey, configured) && r.Some? ==> r.value.Error? && r.value.status == 400
    ensures r.None? <==>
              && InvitationAccepted(req.secretKey, configured)
              && req.fullName != "" && req.email != "" && req.password != ""
              && Utf16Length(req.password) >= 6
              && AdminIndexByEmail(admins, req.email) == -1
  {
    if !InvitationAccepted(req.secretKey, configured) then Some(Error(403, "Invalid Invitation Code."))
    else if req.fullName == "" || req.email == "" || req.password == "" then
      Some(Error(400, "Please provide all fields."))
    else if Utf16Length(req.password) < 6 then
      Some(Error(400, "Password must be at least 6 characters."))
    else if AdminIndexByEmail(admins, req.email) != -1 then
      Some(Error(400, "Admin with this email already exists."))
    else None
  }

  /** A wrong code is refused as such even when every other field is
      missing: the invitation check comes first. */
  lemma WrongCodeFirst(admins: seq<Admin>, configured: Option<string>, secretKey: Option<string>)
    requires !InvitationAccepted(secretKey, configured)
    ensures AdminSignupRejection(admins, AdminSignupRequest("", "", "", secretKey), configured) ==
              Some(Error(403, "Invalid Invitation Code."))
  {
  }

  function NewAdmin(id: string, req: AdminSignupRequest, hash: string -> string): (a: Admin)
    ensures a.id == id && a.email == req.email && a.fullName == req.fullName
    ensures a.passwordHash == hash(req.password)
  {
    Admin(id, req.fullName, req.email, hash(req.password))
  }

  lemma AdminSignupKeepsUnique(admins: seq<Admin>, req: AdminSignupRequest, configured: Option<string>,
                               id: string, hash: string -> string)
    requires UniqueAdmins(admins) && AdminSignupRejection(admins, req, configured).None?
    requires forall k :: 0 <= k < |admins| ==> admins[k].id != id
    ensures UniqueAdmins(admins + [NewAdmin(id, req, hash)])
  {
  }

  /** The signup route. `id` is the fresh ObjectId of the new document.
      The administrator is saved before the token is signed, so with no
      usable signing secret the account exists although the reply is an error. */
  method AdminSignup(db: Db, req: AdminSignupRequest, configured: Option<string>, signingKey: Option<string>,
                     id: string, hash: string -> string) returns (r: Reply<AdminSession>)
    requires db.Valid() && forall k :: 0 <= k < |db.admins| ==> db.admins[k].id != id
    modifies db`admins
    ensures db.Valid()
    ensures AdminSignupRejection(old(db.admins), req, configured).Some? ==>
              r == AdminSignupRejection(old(db.admins), req, configured).value && db.admins == old(db.admins)
    ensures AdminSignupRejection(old(db.admins), req, configured).None? ==>
              var a := NewAdmin(id, req, hash);
              && db.admins == old(db.admins) + [a]
              && r == if !CanSign(signingKey) then Error(500, "Server error during admin signup.")
                      else Success(201, AdminSession("Admin account created successfully!", AdminClaims(id), ViewAdmin(a)))
  {
    var rejection := AdminSignupRejection(db.admins, req, configured);
    if rejection.Some? {
      return rejection.value;
    }
    var newAdmin := NewAdmin(id, req, hash);
    AdminSignupKeepsUnique(db.admins, req, configured, id, hash);
    db.admins := db.admins + [newAdmin];
    if !CanSign(signingKey) {
      return Error(500, "Server error during admin signup.");
    }
    r := Success(201, AdminSession("Admin account created successfully!", AdminClaims(newAdmin.id), ViewAdmin(newAdmin)));
  }

  /** The login route: a missing field is refused, and an unknown email and
      a wrong password get one and the same reply. */
  function AdminLogin(admins: seq<Admin>, email: string, password: string, signingKey: Option<string>,
                      matches: (string, string) -> bool): (r: Reply<AdminSession>)
    ensures email == "" || password == "" ==> r == Error(400, "Please provide email and password.")
    ensures r.Success? ==>
              && r.status == 200 && CanSign(signingKey)
              && exists k :: 0 <= k < |admins| && admins[k].email == email
                   && matches(admins[k].passwordHash, password)
                   && r.body == AdminSession("Logged in successfully!", AdminClaims(admins[k].id), ViewAdmin(admins[k]))
    ensures email != "" && password != "" && AdminIndexByEmail(admins, email) == -1 ==>
              r == Error(401, "Invalid credentials.")
    ensures email != "" && password != "" && AdminIndexByEmail(admins, email) != -1 ==>
              var a := admins[AdminIndexByEmail(admins, email)];
              && (!matches(a.passwordHash, password) ==> r == Error(401, "Invalid credentials."))
              && (matches(a.passwordHash, password) && !CanSign(signingKey) ==>
                    r == Error(500, "Server error during admin login."))
              && (matches(a.passwordHash, password) && CanSign(signingKey) ==>
                    r == Success(200, AdminSession("Logged in successfully!", AdminClaims(a.id), ViewAdmin(a))))
  {
    if email == "" || password == "" then Error(400, "Please provide email and password.")
    else
      var i := AdminIndexByEmail(admins, email);
      if i == -1 then Error(401, "Invalid credentials.")
      else if !matches(admins[i].passwordHash, password) then Error(401, "Invalid credentials.")
      else if !CanSign(signingKey) then Error(500, "Server error during admin login.")
      else Success(200, AdminSession("Logged in successfully!", AdminClaims(admins[i].id), ViewAdmin(admins[i])))
  }

  /** The reply does not tell an unknown email from a wrong password: both
      are the same 401. */
  lemma LoginFailuresIndistinguishable(admins: seq<Admin>, unknown: string, known: string, password: string,
                                       signingKey: Option<string>, matches: (string, string) -> bool)
    requires unknown != "" && known != "" && password != ""
    requires AdminIndexByEmail(admins, unknown) == -1
    requires AdminIndexByEmail(admins, known) != -1
    requires !matches(admins[AdminIndexByEmail(admins, known)].passwordHash, password)
    ensures AdminLogin(admins, unknown, password, signingKey, matches) ==
              AdminLogin(admins, known, password, signingKey, matches) ==
              Error(401, "Invalid credentials.")
  {
  }

  /** The biometric login route: any registered email receives a session,
      with no password and no check of the WebAuthn verification. The email
      goes to `findOne` as it arrives, so a query operator in its place
      matches the first administrator. */
  function BiometricLogin(admins: seq<Admin>, email: EmailQuery, signingKey: Option<string>): (r: Reply<AdminSession>)
    ensures !Truthy(email) ==> r == Error(400, "Email is required for biometric login.")
    ensures Truthy(email) && AdminIndexByQuery(admins, email) == -1 ==>
              r == Error(404, "Admin account not found for this email.")
    ensures r.Success? ==>
              && r.status == 200 && r.body.message == "Logged in successfully with biometrics!"
              && (email.Exact? ==> exists k :: 0 <= k < |admins| && admins[k].email == email.text
                                               && r.body.admin == ViewAdmin(admins[k]))
    ensures r.Success? <==> Truthy(email) && AdminIndexByQuery(admins, email) != -1 && CanSign(signingKey)
    ensures r.Success? ==>
              var a := admins[AdminIndexByQuery(admins, email)];
              r.body.token == AdminClaims(a.id) && r.body.admin == ViewAdmin(a)
    ensures Truthy(email) && AdminIndexByQuery(admins, email) != -1 && !CanSign(signingKey) ==>
              r == Error(500, "Server error during biometric session creation.")
  {
    if !Truthy(email) then Error(400, "Email is required for biometric login.")
    else
      var i := AdminIndexByQuery(admins, email);
      if i == -1 then Error(404, "Admin account not found for this email.")
      else if !CanSign(signingKey) then Error(500, "Server error during biometric session creation.")
      else Success(200, AdminSession("Logged in successfully with biometrics!", AdminClaims(admins[i].id),
                                     ViewAdmin(admins[i])))
  }

  /** No email is needed at all: a query operator in the email field gets
      the first administrator's token whenever one exists, and a 404 only
      when there is none. */
  lemma QueryOperatorTakesFirstAdmin(admins: seq<Admin>, signingKey: string)
    requires signingKey != ""
    ensures admins != [] ==>
              BiometricLogin(admins, AnyEmail, Some(signingKey)) ==
                Success(200, AdminSession("Logged in successfully with biometrics!", AdminClaims(admins[0].id),
                                          ViewAdmin(admins[0])))
    ensures admins == [] ==>
              BiometricLogin(admins, AnyEmail, Some(signingKey)) == Error(404, "Admin account not found for this email.")
  {
  }

  /** A secret set to the empty string signs nothing: neither login route
      can succeed with it, and a registered email then gets a 500. */
  lemma EmptySecretNeverSigns(admins: seq<Admin>, email: string, password: string,
                              matches: (string, string) -> bool)
    ensures AdminLogin(admins, email, password, Some(""), matches).Error?
    ensures BiometricLogin(admins, Exact(email), Some("")).Error?
    ensures email != "" && AdminIndexByEmail(admins, email) != -1 ==>
              BiometricLogin(admins, Exact(email), Some("")) == Error(500, "Server error during biometric session creation.")
  {
  }

  /** Knowing a registered email is enough: whoever is refused by the
      password login gets a token for the same administrator from the
      biometric route. */
  lemma BiometricNeedsOnlyEmail(admins: seq<Admin>, email: string, password: string, signingKey: string,
                                matches: (string, string) -> bool)
    requires email != "" && password != "" && AdminIndexByEmail(admins, email) != -1 && signingKey != ""
    requires AdminLogin(admins, email, password, Some(signingKey), matches).Error?
    ensures BiometricLogin(admins, Exact(email), Some(signingKey)).Success?
    ensures AdminLogin(admins, email, password, Some(signingKey), matches) == Error(401, "Invalid credentials.")
    ensures BiometricLogin(admins, Exact(email), Some(signingKey)).body.token ==
              AdminClaims(admins[AdminIndexByEmail(admins, email)].id)
  {
  }

  /** Signing up and then logging in with the same email and password,
      when the password check accepts what the hash produced, yields the
      administrator that signup created. */
  lemma AdminSignupThenLogin(admins: seq<Admin>, req: AdminSignupRequest, configured: Option<string>,
                             id: string, signingKey: string, hash: string -> string,
                             matches: (string, string) -> bool)
    requires AdminSignupRejection(admins, req, configured).None? && signingKey != ""
    requires matches(hash(req.password), req.password)
    ensures var a := NewAdmin(id, req, hash);
            AdminLogin(admins + [a], req.email, req.password, Some(signingKey), matches) ==
              Success(200, AdminSession("Logged in successfully!", AdminClaims(id), ViewAdmin(a)))
  {
    var a := NewAdmin(id, req, hash);
    var after := admins + [a];
    assert after[|admins|] == a;
    assert AdminIndexByEmail(after, req.email) == |admins| by {
      assert forall k :: 0 <= k < |admins| ==> after[k] == admins[k];
    }
  }
}
