/**
  The access decisions and handler branches of server/auth.ts: the `isAuthenticated` and
  `isAdmin` middlewares, the guard in front of the `/api/admin/` routes, the local login strategy,
  the register and login handlers, and what the session stores about a user.

  bcrypt is opaque here: the hash of a new password is a parameter, and the comparison of
  a password with a stored hash is a function parameter `matches`.
*/
module Auth {
  import opened Wrappers
  import opened Schema

  const CustomerRole := "customer"
  const AdminRole := "admin"
  const NotAuthenticated := "Not authenticated"
  const NotAuthorized := "Not authorized"
  const BadCredentials := "Incorrect email or password"

  /** A row of the `users` table. */
  datatype UserRow = UserRow(id: int, email: string, name: string, passwordHash: string, role: string)

  /** The user object the strategy and the session hand out: there is no password hash in it. */
  datatype SessionUser = SessionUser(id: int, email: string, name: string, role: string)

  /** A request as the middlewares see it: `user` is present exactly when `req.isAuthenticated()`. */
  datatype Request = Request(user: Option<SessionUser>)

  /** A middleware either calls `next()` or answers with a status and a message. */
  datatype Decision = Next | Respond(status: int, message: string)

  function Public(u: UserRow): SessionUser {
    SessionUser(u.id, u.email, u.name, u.role)
  }

  /** `isAuthenticated`. */
  function IsAuthenticated(req: Request): (d: Decision)
    ensures d == Next <==> req.user.Some?
    ensures d != Next ==> d == Respond(401, NotAuthenticated)
  {
    if req.user.Some? then Next else Respond(401, NotAuthenticated)
  }

  /** `isAdmin`: 401 before any role check, then 403 for a signed-in non-admin. */
  function IsAdmin(req: Request): (d: Decision)
    ensures d == Next <==> req.user.Some? && req.user.value.role == AdminRole
    ensures req.user.None? ==> d == Respond(401, NotAuthenticated)
    ensures req.user.Some? && req.user.value.role != AdminRole ==> d == Respond(403, NotAuthorized)
  {
    if req.user.Some? then
      if req.user.value.role == AdminRole then Next else Respond(403, NotAuthorized)
    else Respond(401, NotAuthenticated)
  }

  /** The middleware mounted on every `/api/admin/` route: like `isAdmin`, but a non-admin gets 404. */
  function AdminRoutesGate(req: Request): (d: Decision)
    ensures d == Next <==> req.user.Some? && req.user.value.role == AdminRole
    ensures req.user.None? ==> d == Respond(401, NotAuthenticated)
    ensures req.user.Some? && req.user.value.role != AdminRole ==> d == Respond(404, NotAuthorized)
  {
    if req.user.None? then Respond(401, NotAuthenticated)
    else if req.user.value.role != AdminRole then Respond(404, NotAuthorized)
    else Next
  }

  /** The two admin guards disagree exactly on signed-in non-admins, where one says 403 and the other 404. */
  lemma AdminGuardsDiffer(req: Request)
    ensures AdminRoutesGate(req) != IsAdmin(req) <==> req.user.Some? && req.user.value.role != AdminRole
    ensures AdminRoutesGate(req) != IsAdmin(req) ==> IsAdmin(req).status == 403 && AdminRoutesGate(req).status == 404
  {
  }

  /** Whoever `isAdmin` lets through, `isAuthenticated` lets through too. */
  lemma AdminIsAuthenticated(req: Request)
    requires IsAdmin(req) == Next
    ensures IsAuthenticated(req) == Next
  {
  }

  /** `getUserByEmailDB`: the first row whose e-mail is exactly `email` (`LIMIT 1`). */
  function FindByEmail(users: seq<UserRow>, email: string): (r: Option<UserRow>)
    ensures r.None? <==> forall i :: 0 <= i < |users| ==> users[i].email != email
    ensures r.Some? ==> r.value in users && r.value.email == email
  {
    if users == [] then None
    else if users[0].email == email then Some(users[0])
    else
      var r := FindByEmail(users[1..], email);
      assert r.None? ==> forall i :: 0 <= i < |users| ==> users[i].email != email by {
        if r.None? {
          forall i | 0 <= i < |users| ensures users[i].email != email {
            if i > 0 { assert users[i] == users[1..][i - 1]; }
          }
        }
      }
      r
  }

  /**
    The local strategy: an unknown e-mail and a wrong password fail with the same message;
    otherwise the user comes back without the password hash.
  */
  function Authenticate(users: seq<UserRow>, email: string, password: string, matches: (string, string) -> bool)
    : (r: Result<SessionUser, string>)
    ensures r.Err? ==> r.error == BadCredentials
    ensures FindByEmail(users, email).None? ==> r.Err?
    ensures r.Ok? <==> FindByEmail(users, email).Some? && matches(password, FindByEmail(users, email).value.passwordHash)
    ensures r.Ok? ==> exists u :: u in users && u.email == email && r.value == SessionUser(u.id, u.email, u.name, u.role)
  {
    match FindByEmail(users, email)
    case None => Err(BadCredentials)
    case Some(u) =>
      if matches(password, u.passwordHash) then Ok(Public(u)) else Err(BadCredentials)
  }

  /** The body of `POST /api/auth/login`; `emailOk` is zod's `.email()` verdict on `email`. */
  datatype LoginBody = LoginBody(email: string, password: string, emailOk: bool)

  datatype LoginOutcome = LoginInvalid(issues: seq<Issue>) | LoginRefused(message: string) | LoggedIn(user: SessionUser)

  /** The answer's status: 400 for a body zod refuses, 401 for refused credentials, 200 for a login. */
  function LoginStatus(o: LoginOutcome): (status: int)
    ensures status == 200 <==> o.LoggedIn?
    ensures o.LoginInvalid? ==> status == 400
    ensures o.LoginRefused? ==> status == 401
  {
    match o
    case LoginInvalid(_) => 400
    case LoginRefused(_) => 401
    case LoggedIn(_) => 200
  }

  /** `POST /api/auth/login`: the body is validated before any credential is looked at. */
  function Login(body: LoginBody, users: seq<UserRow>, matches: (string, string) -> bool): (r: LoginOutcome)
    ensures r.LoginInvalid? <==> LoginIssues(body.emailOk, body.password) != []
    ensures r.LoginRefused? ==> r.message == BadCredentials
    ensures r.LoggedIn? ==> Authenticate(users, body.email, body.password, matches) == Ok(r.user)
    ensures LoginIssues(body.emailOk, body.password) == [] && Authenticate(users, body.email, body.password, matches).Ok? ==>
              r == LoggedIn(Authenticate(users, body.email, body.password, matches).value)
    ensures LoginIssues(body.emailOk, body.password) == [] && Authenticate(users, body.email, body.password, matches).Err? ==>
              r == LoginRefused(BadCredentials)
  {
    var issues := LoginIssues(body.emailOk, body.password);
    if issues != [] then LoginInvalid(issues)
    else
      match Authenticate(users, body.email, body.password, matches)
      case Err(m) => LoginRefused(m)
      case Ok(u) => LoggedIn(u)
  }

  /** An invalid login body gets the same 400 whatever the users table and the hashes hold. */
  lemma InvalidLoginIgnoresUsers(body: LoginBody, users1: seq<UserRow>, users2: seq<UserRow>,
                                 matches1: (string, string) -> bool, matches2: (string, string) -> bool)
    requires LoginIssues(body.emailOk, body.password) != []
    ensures Login(body, users1, matches1) == Login(body, users2, matches2)
    ensures LoginStatus(Login(body, users1, matches1)) == 400
  {
  }

  /** An unknown e-mail and a known e-mail with a wrong password are indistinguishable to the caller. */
  lemma UnknownEmailLikeWrongPassword(body: LoginBody, users: seq<UserRow>, other: seq<UserRow>, matches: (string, string) -> bool)
    requires LoginIssues(body.emailOk, body.password) == []
    requires FindByEmail(users, body.email).None?
    requires FindByEmail(other, body.email).Some? && !matches(body.password, FindByEmail(other, body.email).value.passwordHash)
    ensures Login(body, users, matches) == Login(body, other, matches) == LoginRefused(BadCredentials)
  {
  }

  /** The body of `POST /api/auth/register`; `role` may be sent but is never used. */
  datatype RegisterBody = RegisterBody(email: string, name: string, password: string, confirmPassword: string, role: Option<string>)

  /** The user `storage.createUser` is asked to create. */
  datatype NewUser = NewUser(email: string, name: string, passwordHash: string, role: string)

  datatype RegisterOutcome = RegisterInvalid(message: string, issues: seq<Issue>) | Created(user: NewUser)

  /** The answer's status: 201 for a created account, 400 for a refused one (schema issues or a known e-mail). */
  function RegisterStatus(o: RegisterOutcome): (status: int)
    ensures status == 201 <==> o.Created?
    ensures !o.Created? ==> status == 400
  {
    if o.Created? then 201 else 400
  }

  /**
    `POST /api/auth/register`, in its order of checks: schema issues, then an e-mail already
    in the table (exact match), and only then a new customer with the given hash.
  */
  function Register(body: RegisterBody, users: seq<UserRow>, hash: string): (r: RegisterOutcome)
    ensures RegistrationIssues(body.password, body.confirmPassword) != [] ==>
              r == RegisterInvalid("Validation failed", RegistrationIssues(body.password, body.confirmPassword))
    ensures RegistrationIssues(body.password, body.confirmPassword) == [] && FindByEmail(users, body.email).Some? ==>
              r == RegisterInvalid("Email already registered", [])
    ensures r.Created? <==> RegistrationIssues(body.password, body.confirmPassword) == [] &&
                            forall u :: u in users ==> u.email != body.email
    ensures r.Created? ==> r.user == NewUser(body.email, body.name, hash, CustomerRole)
  {
    var issues := RegistrationIssues(body.password, body.confirmPassword);
    if issues != [] then RegisterInvalid("Validation failed", issues)
    else if FindByEmail(users, body.email).Some? then RegisterInvalid("Email already registered", [])
    else Created(NewUser(body.email, body.name, hash, CustomerRole))
  }

  /** Asking for the admin role at registration changes nothing: every new account is a customer. */
  lemma RegisterIgnoresRole(body: RegisterBody, users: seq<UserRow>, hash: string, role: Option<string>)
    ensures Register(body.(role := role), users, hash) == Register(body, users, hash)
    ensures Register(body, users, hash).Created? ==> Register(body, users, hash).user.role == CustomerRole
  {
  }

  /** `serializeUser`: the session keeps the user id and nothing else. */
  function Serialize(u: SessionUser): (id: int)
    ensures id == u.id
  {
    u.id
  }

  /** `deserializeUser`: the first row with that id, without its hash; none when the row is gone. */
  function Deserialize(users: seq<UserRow>, id: int): (r: Option<SessionUser>)
    ensures r.None? <==> forall i :: 0 <= i < |users| ==> users[i].id != id
    ensures r.Some? ==> exists u :: u in users && u.id == id && r.value == Public(u)
  {
    if users == [] then None
    else if users[0].id == id then Some(Public(users[0]))
    else
      var r := Deserialize(users[1..], id);
      assert r.None? ==> forall i :: 0 <= i < |users| ==> users[i].id != id by {
        if r.None? {
          forall i | 0 <= i < |users| ensures users[i].id != id {
            if i > 0 { assert users[i] == users[1..][i - 1]; }
          }
        }
      }
      r
  }

  /** Over a table with distinct ids, a logged-in user read back from the session is the same user. */
  lemma SessionRoundTrip(users: seq<UserRow>, u: UserRow)
    requires u in users
    requires forall i, j :: 0 <= i < j < |users| ==> users[i].id != users[j].id
    ensures Deserialize(users, Serialize(Public(u))) == Some(Public(u))
  {
    var r := Deserialize(users, u.id);
    var i :| 0 <= i < |users| && users[i] == u;
    var w :| w in users && w.id == u.id && r.value == Public(w);
    var j :| 0 <= j < |users| && users[j] == w;
    assert i == j;
  }
}
