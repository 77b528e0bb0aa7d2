/**
 * `AuthService`: registration, login and profile lookup over the users table. The
 * password hash (bcrypt) and the token signer (JWT) are foreign code, so each is a
 * function the caller supplies: `hash` maps a password to what is stored, `matches`
 * says whether a password fits a stored hash, `sign` turns a payload into a token.
 */
module AuthService {
  import opened Wrappers
  import opened Messages
  import opened Sequences
  import opened Tables
  import opened Store

  /** The body of `POST /auth/register`. */
  datatype CreateUserRequest = CreateUserRequest(name: string, email: string, password: string)

  /** The body of `POST /auth/login`. */
  datatype LoginRequest = LoginRequest(email: string, password: string)

  /** `UserResponse`: a user as the API shows it, with no password hash. */
  datatype UserResponse = UserResponse(id: int, email: string, name: string, createdAt: nat)

  /** `JwtPayload`: what a token carries. */
  datatype JwtPayload = JwtPayload(userId: int, email: string)

  /** What register and login answer: the user and a fresh token. */
  datatype Session = Session(user: UserResponse, token: string)

  /** The response object built from a row in `register`, `login` and `getUserById`. */
  function ToResponse(u: UserRow): UserResponse {
    UserResponse(u.id, u.email, u.name, u.createdAt)
  }

  /** The response keeps id, email, name and creation time, and depends on nothing else of the row. */
  lemma ToResponseOmitsSecrets(a: UserRow, b: UserRow)
    ensures ToResponse(a) == ToResponse(b) <==> a.(passwordHash := b.passwordHash, updatedAt := b.updatedAt) == b
  {
  }

  /** The session issued to a stored user: its response and a token signed over `{userId, email}`. */
  function SessionOf(u: UserRow, sign: JwtPayload -> string): Session {
    Session(ToResponse(u), sign(JwtPayload(u.id, u.email)))
  }

  // ---------------------------------------------------------------- register

  /** `register`: an email already in use is refused before hashing; otherwise the hash is stored. */
  function RegisterOutcome(d: Db, req: CreateUserRequest, hash: string -> string, sign: JwtPayload -> string): (s: Step<Result<Session>>)
  {
    if UserByEmail(d.users, req.email).Some? then Step(d, Err(EmailInUse))
    else
      var s := InsertUser(d, req.name, req.email, hash(req.password));
      match s.out
      case Ok(u) => Step(s.db, Ok(SessionOf(u, sign)))
      case Err(e) => Step(s.db, Err(e))
  }

  /** A taken email fails with 'Email já está em uso' and nothing is written, not even a SERIAL value. */
  lemma RegisterRejectsTakenEmail(d: Db, req: CreateUserRequest, hash: string -> string, sign: JwtPayload -> string, u: UserRow)
    requires u in d.users && u.email == req.email
    ensures RegisterOutcome(d, req, hash, sign) == Step(d, Err(EmailInUse))
  {
  }

  /**
   * A fresh email succeeds while the user sequence has ids left (the unique constraint is
   * never what refuses it): one row is appended holding the name, the email and the hash of
   * the password; the answer shows that row and a token for its id and email.
   */
  lemma RegisterStoresHash(d: Db, req: CreateUserRequest, hash: string -> string, sign: JwtPayload -> string)
    requires Consistent(d) && (forall u | u in d.users :: u.email != req.email) && d.userSeq <= MaxInt4
    ensures var s := RegisterOutcome(d, req, hash, sign);
      && s.out.Ok?
      && |s.db.users| == |d.users| + 1
      && s.db.users[..|d.users|] == d.users
      && var row := s.db.users[|d.users|];
      && row.name == req.name && row.email == req.email && row.passwordHash == hash(req.password)
      && row.id !in UserIds(d.users)
      && s.out.value.user == ToResponse(row)
      && s.out.value.token == sign(JwtPayload(row.id, req.email))
      && s.db.assets == d.assets && s.db.records == d.records
      && Consistent(s.db)
  {
    var s := InsertUser(d, req.name, req.email, hash(req.password));
    assert s.db.users[..|d.users|] == d.users;
  }

  /**
   * `register` fails on the email check, or when the user sequence is exhausted; either
   * way the database is untouched.
   */
  lemma RegisterFailures(d: Db, req: CreateUserRequest, hash: string -> string, sign: JwtPayload -> string)
    ensures var s := RegisterOutcome(d, req, hash, sign);
      s.out.Err? <==> (exists u | u in d.users :: u.email == req.email) || d.userSeq > MaxInt4
    ensures var s := RegisterOutcome(d, req, hash, sign);
      s.out.Err? ==> s.db == d
    ensures var s := RegisterOutcome(d, req, hash, sign);
      s.out.Err? ==> s.out.error == if exists u | u in d.users :: u.email == req.email then EmailInUse else UsersSeqExhausted
  {
  }

  method Register(db: Database, req: CreateUserRequest, hash: string -> string, sign: JwtPayload -> string) returns (r: Result<Session>)
    requires db.Valid()
    modifies db
    ensures db.Valid()
    ensures db.State() == RegisterOutcome(old(db.State()), req, hash, sign).db
    ensures r == RegisterOutcome(old(db.State()), req, hash, sign).out
  {
    if UserByEmail(db.users, req.email).Some? {
      return Err(EmailInUse);
    }
    var passwordHash := hash(req.password);
    var user := db.CreateUser(req.name, req.email, passwordHash);
    match user {
      case Ok(u) => r := Ok(SessionOf(u, sign));
      case Err(e) => r := Err(e);
    }
  }

  // ---------------------------------------------------------------- login

  /** `login`: the user with that email, if the password matches its stored hash. */
  function Login(d: Db, req: LoginRequest, matches: (string, string) -> bool, sign: JwtPayload -> string): (r: Result<Session>)
    ensures r.Err? ==> r.error == InvalidCredentials
    ensures r.Ok? ==> exists u | u in d.users ::
      u.email == req.email && matches(req.password, u.passwordHash) && r.value == SessionOf(u, sign)
  {
    match UserByEmail(d.users, req.email)
    case None => Err(InvalidCredentials)
    case Some(u) => if matches(req.password, u.passwordHash) then Ok(SessionOf(u, sign)) else Err(InvalidCredentials)
  }

  /** With emails unique, login succeeds exactly for the owner of the email and a matching password. */
  lemma LoginSucceedsIffPasswordMatches(d: Db, req: LoginRequest, matches: (string, string) -> bool, sign: JwtPayload -> string, u: UserRow)
    requires Consistent(d) && u in d.users && u.email == req.email
    ensures Login(d, req, matches, sign).Ok? <==> matches(req.password, u.passwordHash)
    ensures Login(d, req, matches, sign).Ok? ==> Login(d, req, matches, sign).value == SessionOf(u, sign)
  {
    UserByEmailOfMember(d.users, u);
  }

  /**
   * An unknown email and a wrong password are answered identically, so the reply does not
   * tell whether an account exists.
   */
  lemma LoginHidesWhichCheckFailed(d: Db, unknown: LoginRequest, wrong: LoginRequest, matches: (string, string) -> bool, sign: JwtPayload -> string, u: UserRow)
    requires Consistent(d)
    requires forall x | x in d.users :: x.email != unknown.email
    requires u in d.users && u.email == wrong.email && !matches(wrong.password, u.passwordHash)
    ensures Login(d, unknown, matches, sign) == Login(d, wrong, matches, sign) == Err(InvalidCredentials)
  {
    LoginSucceedsIffPasswordMatches(d, wrong, matches, sign, u);
  }

  // ---------------------------------------------------------------- getUserById

  /** `getUserById`: null for an unknown id, otherwise the user without the hash. */
  function GetUserById(d: Db, id: int): (r: Option<UserResponse>)
    ensures r.None? <==> id !in UserIds(d.users)
    ensures r.Some? ==> exists u | u in d.users :: u.id == id && r.value == ToResponse(u)
  {
    match UserById(d.users, id)
    case None => None
    case Some(u) => Some(ToResponse(u))
  }

  /** Right after a registration, the profile of the new id is the user the registration answered with. */
  lemma RegisteredUserIsFound(d: Db, req: CreateUserRequest, hash: string -> string, sign: JwtPayload -> string)
    requires Consistent(d) && RegisterOutcome(d, req, hash, sign).out.Ok?
    ensures var s := RegisterOutcome(d, req, hash, sign);
      GetUserById(s.db, s.out.value.user.id) == Some(s.out.value.user)
  {
    var s := RegisterOutcome(d, req, hash, sign);
    RegisterFailures(d, req, hash, sign);
    RegisterStoresHash(d, req, hash, sign);
    var row := s.db.users[|d.users|];
    assert row in s.db.users;
    UserByIdOfMember(s.db.users, row);
  }
}
