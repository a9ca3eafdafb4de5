/** `AuthController` (`/auth`): login, register-then-login, the current
    user, and logout. */
module AuthController {
  import opened Wrappers
  import opened Text
  import opened Entities
  import opened Sessions
  import opened Store
  import opened AuthService

  datatype LoginRequest = LoginRequest(email: string, password: string)
  datatype RegisterRequest = RegisterRequest(name: string, email: string, password: string)

  /** `POST /auth/login`. */
  method Login(db: Database, session: Session, enc: PasswordEncoder, req: LoginRequest) returns (r: Result<User>)
    modifies session
    ensures r == Authenticate(db.users, enc, req.email, req.password)
    ensures r.Ok? ==> session.userId == Some(r.value.id)
    ensures r.Err? ==> session.userId == old(session.userId)
  {
    r := AuthService.Login(db, session, enc, req.email, req.password);
  }

  /** `POST /auth/register`: registration, then the automatic login. A taken
      email is answered with 409 and logs nobody in; with a sound encoder a
      new user ends up logged in as themselves. */
  method Register(db: Database, session: Session, enc: PasswordEncoder, req: RegisterRequest) returns (r: Result<User>)
    requires db.Valid()
    modifies db, session
    ensures db.Valid()
    ensures FindByEmailIgnoreCase(old(db.users), req.email).Some? ==>
      && r == Err(Conflict)
      && db.users == old(db.users)
      && db.nextUserId == old(db.nextUserId)
      && session.userId == old(session.userId)
    ensures FindByEmailIgnoreCase(old(db.users), req.email).None? ==>
      && db.users == old(db.users) + [User(old(db.nextUserId), req.name, req.email, enc.encode(req.password))]
      && db.nextUserId == old(db.nextUserId) + 1
    ensures FindByEmailIgnoreCase(old(db.users), req.email).None? && EncoderSound(enc) ==>
      && r == Ok(User(old(db.nextUserId), req.name, req.email, enc.encode(req.password)))
      && session.userId == Some(old(db.nextUserId))
    ensures old(EmailsUnique(db.users)) ==> EmailsUnique(db.users)
    ensures db.categories == old(db.categories) && db.transactions == old(db.transactions)
    ensures db.nextCategoryId == old(db.nextCategoryId) && db.nextTransactionId == old(db.nextTransactionId)
    ensures old(db.OwnershipConsistent()) ==> db.OwnershipConsistent()
  {
    var registered := AuthService.Register(db, enc, req.name, req.email, req.password);
    if registered.Err? {
      return Err(registered.status);
    }
    if EncoderSound(enc) {
      RegisteredUserAuthenticates(old(db.users), enc, registered.value, req.password);
    }
    r := AuthService.Login(db, session, enc, req.email, req.password);
  }

  /** `GET /auth/me`: 401 without a session user, 404 when the id names no
      user, the user otherwise. */
  function Me(sessionUserId: Option<Id>, users: seq<User>): (r: Result<User>)
    ensures sessionUserId.None? ==> r == Err(Unauthorized)
    ensures sessionUserId.Some? ==> (r.Ok? <==> exists u :: u in users && u.id == sessionUserId.value)
    ensures sessionUserId.Some? && r.Err? ==> r.status == NotFound
    ensures r.Ok? ==> r.value in users && r.value.id == sessionUserId.value
  {
    if sessionUserId.None? then Err(Unauthorized)
    else
      var found := FindUserById(users, sessionUserId.value);
      if found.None? then Err(NotFound) else Ok(found.value)
  }

  /** After a successful login, `me` answers with the user who logged in. */
  lemma MeAfterLogin(users: seq<User>, enc: PasswordEncoder, email: string, password: string)
    requires UniqueUserKeys(users)
    requires Authenticate(users, enc, email, password).Ok?
    ensures Me(Some(Authenticate(users, enc, email, password).value.id), users) == Authenticate(users, enc, email, password)
  {
  }

  /** `POST /auth/logout`. */
  method Logout(session: Session)
    modifies session
    ensures session.userId.None?
    ensures forall users :: Me(session.userId, users) == Err(Unauthorized)
  {
    AuthService.Logout(session);
  }
}
