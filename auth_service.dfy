/** `AuthService`: login against the stored hash, logout, the session
    guard, and registration with a case-insensitive unique email. The
    password encoder (BCrypt in the application) is a pair of functions the
    model does not look inside. */
module AuthService {
  import opened Wrappers
  import opened Text
  import opened Entities
  import opened Sessions
  import opened Store
  import Seqs

  /** `PasswordEncoder.encode` and `PasswordEncoder.matches(raw, hash)`. */
  datatype PasswordEncoder = PasswordEncoder(encode: string -> string, matches: (string, string) -> bool)

  /** What every encoder promises: a password matches its own hash. */
  ghost predicate EncoderSound(enc: PasswordEncoder) {
    forall p :: enc.matches(p, enc.encode(p))
  }

  /** No two users have emails that are equal ignoring case. */
  predicate EmailsUnique(users: seq<User>) {
    forall u, v :: u in users && v in users && EqualsIgnoreCase(u.email, v.email) ==> u == v
  }

  /** The credential check of `login`: the user found by email ignoring
      case, kept only if the password matches the stored hash. An unknown
      email and a wrong password get the same 401. */
  function Authenticate(users: seq<User>, enc: PasswordEncoder, email: string, password: string): (r: Result<User>)
    ensures r.Ok? ==> r.value in users && EqualsIgnoreCase(r.value.email, email)
                      && enc.matches(password, r.value.password)
    ensures r.Err? ==> r.status == Unauthorized
    ensures EmailsUnique(users) ==>
      (r.Ok? <==> exists u :: u in users && EqualsIgnoreCase(u.email, email) && enc.matches(password, u.password))
  {
    var found := FindByEmailIgnoreCase(users, email);
    if found.Some? && enc.matches(password, found.value.password) then Ok(found.value)
    else Err(Unauthorized)
  }

  /** The email is compared ignoring case: spellings that differ only in
      case log in (or fail) alike. */
  lemma AuthenticateIgnoresEmailCase(users: seq<User>, enc: PasswordEncoder, e1: string, e2: string, password: string)
    requires EqualsIgnoreCase(e1, e2)
    ensures Authenticate(users, enc, e1, password) == Authenticate(users, enc, e2, password)
  {
    Seqs.FindFirstCongruent(users, (u: User) => EqualsIgnoreCase(u.email, e1),
                                   (u: User) => EqualsIgnoreCase(u.email, e2));
  }

  /** `login`: on success the session carries the user's id; on failure the
      session is left as it was. */
  method Login(db: Database, session: Session, enc: PasswordEncoder, email: string, password: string)
    returns (r: Result<User>)
    modifies session
    ensures r == Authenticate(db.users, enc, email, password)
    ensures r.Ok? ==> session.userId == Some(r.value.id)
    ensures r.Err? ==> session.userId == old(session.userId)
  {
    r := Authenticate(db.users, enc, email, password);
    if r.Ok? {
      session.userId := Some(r.value.id);
    }
  }

  /** `logout`: afterwards no user id is in the session, whether or not there
      was one, so logging out twice is the same as once. */
  method Logout(session: Session)
    modifies session
    ensures session.userId.None?
  {
    session.userId := None;
  }

  /** `requireSessionUserId`: the shared session guard. */
  function RequireSessionUserId(sessionUserId: Option<Id>): (r: Result<Id>)
    ensures r.Ok? <==> sessionUserId.Some?
    ensures r.Ok? ==> r.value == sessionUserId.value
    ensures r.Err? ==> r.status == Unauthorized
  {
    RequireUserId(sessionUserId)
  }

  /** A user whose email is new keeps the emails unique. */
  lemma RegisterKeepsEmailsUnique(users: seq<User>, u: User)
    requires EmailsUnique(users)
    requires FindByEmailIgnoreCase(users, u.email).None?
    ensures EmailsUnique(users + [u])
  {
  }

  /** A freshly registered user logs in with the password given at
      registration, through any sound encoder. */
  lemma RegisteredUserAuthenticates(users: seq<User>, enc: PasswordEncoder, u: User, password: string)
    requires EncoderSound(enc)
    requires FindByEmailIgnoreCase(users, u.email).None?
    requires u.password == enc.encode(password)
    ensures Authenticate(users + [u], enc, u.email, password) == Ok(u)
  {
    assert u in users + [u];
  }

  /** `register`: 409 and no change when the email is taken ignoring case;
      otherwise a new row holding the hash of the password. */
  method Register(db: Database, enc: PasswordEncoder, name: string, email: string, password: string)
    returns (r: Result<User>)
    requires db.Valid()
    modifies db
    ensures db.Valid()
    ensures FindByEmailIgnoreCase(old(db.users), email).Some? ==>
      r == Err(Conflict) && db.users == old(db.users) && db.nextUserId == old(db.nextUserId)
    ensures FindByEmailIgnoreCase(old(db.users), email).None? ==>
      && r == Ok(User(old(db.nextUserId), name, email, enc.encode(password)))
      && db.users == old(db.users) + [r.value]
      && db.nextUserId == old(db.nextUserId) + 1
    ensures old(EmailsUnique(db.users)) ==> EmailsUnique(db.users)
    ensures db.categories == old(db.categories) && db.transactions == old(db.transactions)
    ensures db.nextCategoryId == old(db.nextCategoryId) && db.nextTransactionId == old(db.nextTransactionId)
  {
    if FindByEmailIgnoreCase(db.users, email).Some? {
      return Err(Conflict);
    }
    var u := db.InsertUser(name, email, enc.encode(password));
    if old(EmailsUnique(db.users)) {
      RegisterKeepsEmailsUnique(old(db.users), u);
    }
    r := Ok(u);
  }
}
